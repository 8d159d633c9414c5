# Salpa firmware: verified model

A Dafny model of the security key's update, transport and maintenance logic, with proofs about whole runs of it.
`dafny verify dfyconfig.toml` checks everything.

## What is modelled

**The A/B update protocol, from the host script to the boot records.** `UsbUpdater` (device) and `install` (host) talk
over vendor requests. Under them sit two image slots and two 32-byte boot records. Every answer the hardware gives, the
clock included, comes from a tape: a call may fail after doing its work, succeed after doing none of it, or be cut
anywhere. SHA-256 is an arbitrary function and the RSA check an arbitrary predicate. A log records every call.

| file | models |
|---|---|
| `Words.dfy` | bytes, words, bit strings |
| `Crc.dfy` | both CRC-32 loops and their algebra |
| `OtaMetadata.dfy` | boot records, selection, torn records |
| `FlashBackend.dfy` | slots, records and backend calls, as functions and as a class |
| `SignedImage.dfy` | signature block, image extent, installed-image verification |
| `UsbUpdate.dfy`, `UsbUpdaterClass.dfy` | the request handlers as functions, and the class that updates fields in place |
| `VendorCommands.dfy` | the consent dispatch |
| `UpdateSoundness.dfy` | the invariant of every reachable session; activation soundness |
| `UpdateRuns.dfy` | whole runs with resets and power cuts; crash safety |
| `UpdateAuthority.dfy` | who authorized each flash change |
| `UpdateCoverage.dfy` | what a session has erased and written, and that nothing happens without the button |
| `UpdateAnswers.dfy` | what every request is answered with, on the request's and the slot's own bytes |
| `AntiRollback.dfy` | the hardware counter against every image that can boot |
| `HostProtocol.dfy`, `InstallRuns.dfy`, `HostInstall.dfy` | the host half; host and device together |

**The CTAPHID transport** (CTAP 2.1, section 11.2). `CtapHidEngine.dfy` is the engine as a state machine on values and
carries the reachable-state invariant. `CtapHid.dfy` is the class with its fixed buffers and slot array, refining it
method by method. `CtapHidTheorems.dfy` has the fragment and reassembly round trip and non-interference between
channels; `CtapHidAnswers.dfy` says what the host gets back byte for byte, and that no channel is granted twice.

**AES-XTS** (`Xts.dfy`): the key helper's reversed 128-byte loop against the block-wise definition of IEEE Std 1619. AES
is an arbitrary keyed permutation.

**Raising the security epoch**: `SecurityEpoch.dfy` plans which fuse bits to burn, `EfuseTransaction.dfy` burns them
once against an arbitrary controller.

**Smaller state machines**: `PresenceGate.dfy` and `MaintenancePresence.dfy` (button gestures over all sample traces;
`Traces.dfy` is what they share), `FlashWindow.dfy` (paged reads and blocked writes refine flat flash),
`MemoryProtection.dfy` (permissions read back before they are locked, for any register behaviour).

Code that changes fields or buffers in place is a class or a method proved against a specification function; the
theorems are about those functions. What such a function must be is fixed by a lemma, usually named `...Exactly` or
`...Bytes`, that speaks of bytes, bits, calls and literal numbers and not of the function's own helpers.

## What turned out not to hold

- A torn record of sequence zero can be selectable, because the checksum of zero is the erased word. `next_sequence`
  never produces zero, and `OtaMetadata.TornRecordExactly` says exactly when the guarantee holds.
- The sequence after 0xFFFF_FFFE is 0xFFFF_FFFF, which no bootloader selects. The device then reports success for an
  activation that changes nothing. `AntiRollback.ActivationSelectsExactly` gives the bound.
- The segment bound `slot - 4096 - 48` is exact only to the 16-byte row: fifteen segment ends that would fit are
  refused. `SignedImage.SegmentLimitIsTheLastRow`.
- A keepalive survives its request when the application's answer is too long for the buffer.
  `CtapHidEngine.OrphansComeFromOversizeReplies` says that nothing else does it, `CtapHidTheorems.OrphanIsReachable`
  reaches such a state.
- A five-second hold does not count if no poll falls between 25 ms and the poll that completes it, since the watch moves
  one stage a poll. `MaintenancePresence.Hold`.
- `read_update` leaves the window off its fixed mapping when a mapping call fails: it does not try to restore after the
  first call of a page fails, and the restoring call may fail itself. `ReadUpdate` says where the window then is,
  `FlashWindow.FailureLeavesWindow` shows both.

## Assumptions of the run theorems

- The bootloader is an environment step: it marks PENDING records ABORTED and a followed NEW record PENDING, and may be
  cut between or inside those rewrites (src/platform/ota.rs:509-522 describes it).
- A cut record rewrite leaves the old record or a prefix of the new one over erased bytes. Reads that succeed are
  faithful.
- `CrashSafe` starts from a VALID record that the bootloader follows and an intact slot behind it.
- `LifetimeAntiRollback` also assumes that firmware starts with the floor its own descriptor states. A raise in a run is
  `Prepare` on the evidence of both slots followed by `AttemptChange`; fuses only turn on, and any subset of the
  programmed bits may.
- `UpdateTakesEffect` and `UnconfirmedIsGivenUp` are about boots and confirmations whose calls work; everything else
  about runs holds for calls that fail, lie or are cut short.
- A good run of `Install` means: every call succeeds and does its work, the clock does not run back, any 150
  consecutive hardware calls fall within the idle time and the whole run within the session lifetime, the user presses,
  and the image is genuine and not below the floor.

## Model

| member | source | states |
|---|---|---|
| Crc.ShiftByte | src/signed_image.rs:204-208 | the in-place inner loop of both checksums is eight rounds of the reflected shift register |
| Crc.AbsorbBytes | src/signed_image.rs:202-211 | the byte loop, started from any register, leaves the register that absorbing the whole message does |
| Crc.EspCrc32Le | src/signed_image.rs:202-211 | the loop computes the specification checksum for every seed and message |
| Crc.ComputeOtaCrc | src/platform/ota.rs:217-226 | the loop over the four sequence bytes computes the record checksum |
| Crc.UnstepStep | src/signed_image.rs:204-208 | a round of the register can be undone, because the polynomial's top coefficient is set |
| Crc.StepXor | src/signed_image.rs:204-208 | a round is linear over exclusive or |
| Crc.AbsorbIsBitSerial | src/signed_image.rs:202-211 | the byte loop is the bit-serial register fed with the message's bits |
| Crc.SeedContinues | src/signed_image.rs:202-211 | checksumming `a` and passing the result on as the seed for `b` is checksumming `a + b`, for all lengths |
| Crc.OtaCrcIsEspCrc | src/platform/ota.rs:217-226 | the record checksum of a sequence is the image checksum of its four bytes under an all-ones seed |
| Crc.AbsorbBitsInjective | src/signed_image.rs:202-211 | different registers never merge, whatever bits follow |
| Crc.ShortWindow | src/signed_image.rs:202-211 | from one register, two different strings of at most 32 bits lead to different registers |
| Crc.BurstDetected | src/signed_image.rs:181-187 | two messages that differ only inside any 32 consecutive bits, at any bit position, have different checksums |
| Crc.ByteBurstDetected | src/signed_image.rs:181-187 | two messages that differ only inside four consecutive bytes have different checksums, for every length and seed |
| Crc.ShortMessageDetermined | src/signed_image.rs:202-211 | a message of at most four bytes is determined by its length and checksum |
| Crc.OtaCrcInjective | src/platform/ota.rs:217-226 | different sequences have different record checksums |
| Crc.OtaCrcBijective | src/platform/ota.rs:217-226 | `ota_crc` is a bijection on 32-bit words: an explicit inverse undoes it on either side |
| Crc.OtaCrcErased | src/platform/ota.rs:217-226 | `ota_crc(s)` is the erased word exactly for sequence zero |
| Crc.PolyIsGenerator | src/signed_image.rs:206 | the constant in the loop is the CRC-32 generator polynomial, coefficient by coefficient, reflected |
| Crc.AbsorbIsRemainder | src/signed_image.rs:202-211 | shifting any bits through the register from any start is long division of polynomials by that generator |
| Crc.EspCrcIsRemainder | src/signed_image.rs:202-211 | for every seed and message the checksum is, up to complements, the remainder of the message by the generator |
| OtaMetadata.ActiveEntryIsGreatest | src/platform/ota.rs:63-72 | the followed record is the selectable one of the highest sequence, the first on a tie; there is none exactly when neither is selectable |
| OtaMetadata.QualifiedLayoutFromEntries | src/platform/ota.rs:97-124 | accepts exactly when both records are VALID, name different slots and the followed one describes the executing image |
| OtaMetadata.LayoutExactly | src/platform/ota.rs:74-91 | an update is offered if and only if the followed record is VALID and its sequence names the executing slot; then for that slot, sequence and the other record |
| OtaMetadata.RecordBytes | src/platform/ota.rs:38-60 | where a record keeps sequence, state and checksum, and exactly which 32 bytes can be followed at all |
| OtaMetadata.ErasedNotSelectable | src/platform/ota.rs:47-52 | an erased record is never followed |
| OtaMetadata.TornRecord | src/platform/ota.rs:38-60 | for every nonzero sequence, state and cut length, a half-written record is unselectable or byte for byte the complete one |
| OtaMetadata.TornRecordExactly | src/platform/ota.rs:38-60 | where that ends: it holds for every cut if and only if the sequence is nonzero or the state is the erased word |
| OtaMetadata.TornSequenceZero | src/platform/ota.rs:38-60 | a cut record of sequence zero that is selectable still has sequence zero |
| FlashBackend.FlashDevice.Read | src/platform/usb_update.rs:145-176 | a read that succeeds returns exactly the asked bytes of the slot and changes nothing |
| FlashBackend.FlashDevice.Erase | src/platform/usb_update.rs:55-78 | alignment and bounds refuse the call; otherwise only the asked range of the asked slot changes, and the call is logged |
| FlashBackend.FlashDevice.Write | src/platform/usb_update.rs:80-108 | alignment and bounds refuse the call; otherwise only the asked range of the asked slot changes, and the call is logged |
| FlashBackend.FlashDevice.Layout | src/platform/ota.rs:302-318 | the layout is the one the two records and the executing offset determine |
| FlashBackend.FlashDevice.Replace | src/platform/ota.rs:257-283 | a record rewrite leaves the old record or any prefix of the new one over erased bytes |
| FlashBackend.FlashDevice.ReplaceAndCheck | src/platform/ota.rs:343-359 | success means the record read back equal to what was asked for |
| FlashBackend.FlashDevice.Activate | src/platform/ota.rs:327-361 | rewrites only the inactive record, only for a still-valid layout, and succeeds only after reading it back |
| FlashBackend.FlashDevice.Confirm | src/platform/ota.rs:375-425 | does to records and answer exactly what `ConfirmRunningImage` says, whose conditions on flash bytes are `ConfirmExactly` |
| FlashBackend.EraseSlotExactly | src/platform/usb_update.rs:55-78 | for every argument: refused without touching flash exactly when unaligned, empty or outside the slot, else the answer is the hardware's and only the range changes |
| FlashBackend.WriteSlotExactly | src/platform/usb_update.rs:80-108 | the same for writes, in units of 32 bytes |
| FlashBackend.ReadSlotExactly | src/platform/usb_update.rs:145-176 | a read succeeds exactly when the hardware does and the range lies in the slot |
| FlashBackend.ReplacedRecord | src/platform/ota.rs:343-359 | a rewrite reported as done left the new record in flash; calls that work are reported so |
| FlashBackend.ActivateExactly | src/platform/ota.rs:327-361 | on arbitrary arguments an activation changes flash or reports success only for the record not followed, beside a VALID record of the executing slot, with a later sequence of the other slot; and it succeeds there when its calls work |
| FlashBackend.DescriptorIsBytes | src/platform/ota.rs:204-216 | the confirmation check, as a statement about bytes 32 to 80 of the slot |
| FlashBackend.ConfirmExactly | src/platform/ota.rs:375-425 | a confirmation changes flash or answers yes only if the followed record is PENDING, its slot is the one executing, and that slot's descriptor has the caller's version and secure version; it then succeeds when its calls work, and otherwise answers no |
| SignedImage.BlockBurstRejected | src/signed_image.rs:176-200 | an accepted signature block is rejected after any change within four consecutive checksum-covered bytes while its checksum field stays |
| SignedImage.MetadataIsBytes | src/signed_image.rs:140-169 | the header parser finds a version and secure version exactly when the image's own bytes say so: magic, chip, segment count, descriptor magic, NUL-terminated version |
| SignedImage.BlockIsBytes | src/signed_image.rs:176-200 | a signature block parses if and only if magic, version, checksum and the digest of its key bytes are right, and its fields are those bytes |
| SignedImage.AcceptedIsSigned | src/signed_image.rs:113-127 | what both verifiers do with the parsed block comes to six conditions on the image's bytes, the trusted key among them |
| SignedImage.SegmentsAreWalked | src/signed_image.rs:73-88 | the header walk succeeds exactly if there is a chain of segment headers inside the limit, and ends where that chain does |
| SignedImage.InstalledExactly | src/signed_image.rs:57-133 | each verdict on an installed slot has exactly its cause in the slot's bytes; an accepted one is signed under the trusted key just behind its last segment, and the evidence is what those bytes say |
| SignedImage.SignatureOffsetIsLeast | src/signed_image.rs:89-100 | the signature offset is the least multiple of 4096 at or above the trailer that follows all segments |
| SignedImage.ExtentAlwaysFits | src/signed_image.rs:83-100 | for every segment end under the limit the final offset filter passes: it never rejects, and nothing overflows |
| SignedImage.SegmentLimitIsTheLastRow | src/signed_image.rs:83-100 | the limit is the last 16-byte row that fits; it refuses exactly the fifteen further ends of that row that would also fit, never one too few |
| SignedImage.MeasureSegments | src/signed_image.rs:73-88 | the header walk ends where the segment lengths put it, or fails where they overflow or pass the limit, reading only inside the slot |
| SignedImage.ReadBelow | src/signed_image.rs:101-112 | the kilobyte loop feeds the hasher exactly the slot's bytes below the limit, in order |
| SignedImage.CheckSignature | src/signed_image.rs:113-127 | accepts only bytes that are a signature block, under the trusted key, of everything below them (`SignedBelow`, stated on bytes) |
| SignedImage.VerifyInstalledSlot | src/signed_image.rs:57-133 | with every read working the verdict is `InstalledImage`'s, and Ok only for a plausible header whose segments a signature under the trusted key follows, on the slot's bytes; nothing is written |
| UsbUpdaterClass.UsbUpdater.Expire | src/usb_update.rs:127-142 | applies both deadlines to a reading: out of time, or a reading before the last, ends the session's authority |
| UsbUpdaterClass.UsbUpdater.MakeProgress | src/usb_update.rs:144-150 | records the time of successful work unless the deadline has passed |
| UsbUpdaterClass.UsbUpdater.Poll | src/usb_update.rs:197-201 | reads the clock once for a live session and only expires it |
| UsbUpdaterClass.UsbUpdater.BeginUpdate | src/usb_update.rs:229-297 | opens a session exactly for a well-formed, approved BEGIN at or above the running floor on a fresh layout |
| UsbUpdaterClass.UsbUpdater.WriteChunk | src/usb_update.rs:299-341 | accepts exactly the next aligned chunk of a receiving session, inside the image |
| UsbUpdaterClass.UsbUpdater.EraseStep | src/usb_update.rs:353-373 | one erase call and the session after it are `DoErase`'s, whose range `EraseGood` and `UpdateCoverage` pin down |
| UsbUpdaterClass.UsbUpdater.ReadBack | src/usb_update.rs:392-429 | reads one step back a kilobyte at a time into both streaming hashers, rechecking the deadlines before and after each read |
| UsbUpdaterClass.UsbUpdater.VerifyStep | src/usb_update.rs:392-433 | one verification step: read back, and finish at the end of the image |
| UsbUpdaterClass.UsbUpdater.FinishVerification | src/usb_update.rs:435-522 | the outcome is `DoFinish`'s, which `FinishExactly` ties to six checks on the slot's bytes in order |
| UsbUpdaterClass.UsbUpdater.ActivateVerified | src/usb_update.rs:494-521 | calls activate once and makes the session terminal either way |
| UsbUpdaterClass.UsbUpdater.AdvanceUpdate | src/usb_update.rs:343-390 | dispatches ADVANCE on the session's phase |
| UsbUpdaterClass.UsbUpdater.AbortUpdate | src/usb_update.rs:544-556 | revokes an uncommitted session |
| UsbUpdaterClass.UsbUpdater.HandleOperation | src/usb_update.rs:209-227 | parses the operation and routes it; malformed requests change nothing but the clock's effect |
| UsbUpdaterClass.UsbUpdater.HandleRequest | src/usb_update.rs:189-195 | serves one request exactly as the specification and encodes the answer |
| UsbUpdaterClass.UsbUpdater.Encode | src/usb_update.rs:558-585 | lays the status record out byte by byte |
| UsbUpdaterClass.UsbUpdater.DispatchVendor | src/platform/vendor_commands.rs:23-56 | the answer and new state of the whole consent dispatch, with the button asked at most once |
| UpdateSoundness.NextSequenceIsNext | src/usb_update.rs:597-604 | for a layout's active sequence the next sequence is one more and names the other slot |
| UpdateSoundness.NextSequenceIsLeast | src/usb_update.rs:597-604 | for any sequence and slot: the least greater sequence that names the slot, if there is one in 32 bits |
| UpdateSoundness.OpenedOk | src/usb_update.rs:229-297 | a session that opens satisfies the session invariant: aimed at the slot that is not followed, on the layout just read |
| UpdateSoundness.VerifyChunksOk | src/usb_update.rs:392-429 | both hashers agree with flash after every chunk of a step, across the signature-sector boundary |
| UpdateSoundness.EraseEffect | src/usb_update.rs:353-373 | an erase step changes only the target slot of its session and keeps the invariant |
| UpdateSoundness.WriteEffect | src/usb_update.rs:299-341 | a write changes only the target slot of its session and keeps the invariant |
| UpdateSoundness.FinishPasses | src/usb_update.rs:435-493 | verification that goes on to activate has established hash, descriptor, floor and signature of the slot's bytes; otherwise flash is untouched |
| UpdateSoundness.CommitCall | src/platform/ota.rs:327-361 | the activation call can only touch the inactive record, and reports success only when the new one is in place |
| UpdateSoundness.HandleEffect | src/usb_update.rs:189-227 | every request in every reachable state leaves flash alone, works inside its session's target slot, or makes the one activation call; and it keeps the invariant that ties hashers, session and flash together |
| UpdateSoundness.ActivationSound | src/usb_update.rs:435-522 | when activate is called, it is called once, and the target slot's bytes hash to BEGIN's hash, hold a signature block under the trusted key of all that is below it, and a descriptor with the claimed version at or above the floor; the layout is BEGIN's, the session is over, and if it reads activated the new record is in flash |
| UpdateSoundness.NewlyActivatedWell | src/usb_update.rs:505-522 | no request makes a session read activated unless its slot's bytes have BEGIN's hash, the claimed descriptor and a signature under the trusted key, and the new record is in flash |
| UpdateSoundness.WorkContinues | src/usb_update.rs:299-390 | neither WRITE nor ADVANCE ever replaces the session or its claim |
| UpdateRuns.AttemptOutcome | src/platform/ota.rs:257-283 | whatever a cut rewrite leaves is the old record, nothing selectable, or the new record; sequence zero may only stay at zero |
| UpdateRuns.ConfirmFlash | src/platform/ota.rs:375-425 | confirmation touches only the record of a candidate on trial |
| UpdateRuns.BootloaderKeeps | src/platform/ota.rs:509-522 | however far the bootloader's own record updates get, the device stays settled or on trial |
| UpdateRuns.TrialWon | src/platform/ota.rs:375-425 | a candidate whose record reads VALID is the confirmed image from then on |
| UpdateRuns.TrialLost | src/platform/ota.rs:63-72 | losing a candidate's record brings selection back to the confirmed image |
| UpdateRuns.DispatchKeepsSafe | src/platform/vendor_commands.rs:23-56 | every vendor request, with any hardware answers and any power cut, keeps the safety invariant |
| UpdateRuns.ConfirmKeepsSafe | src/platform/ota.rs:375-425 | so does a confirmation |
| UpdateRuns.BootKeepsSafe | src/platform/ota.rs:63-72 | so does a reset |
| UpdateRuns.ActKeepsSafe | src/platform/ota.rs:63-91 | one action keeps safety, and the confirmed image changes only to a fully verified one |
| UpdateRuns.OnlyTheCandidateConfirms | src/platform/ota.rs:204-216 | in every run the confirmed image changes only at a confirmation, to the candidate in the other slot, which was PENDING, is the image executing, and announces the confirming firmware's version and secure version in its descriptor bytes |
| UpdateRuns.ActivatedIsCandidate | src/usb_update.rs:597-604 | a finished activation leaves a candidate up to sequence 0xFFFF_FFFE; past it, the confirmed image goes on being followed |
| UpdateRuns.UpdateTakesEffect | src/platform/ota.rs:375-425 | when the calls work, a boot that starts an activated candidate and its confirmation make it the confirmed image |
| UpdateRuns.UnconfirmedIsGivenUp | src/platform/ota.rs:509-522 | a candidate that does not confirm itself in its first boot is given up by the next, and the bootloader is back at the confirmed image |
| UpdateRuns.ProvisionedIsFresh | src/platform/ota.rs:54-72 | the starting point of the run theorems exists for every image, every followable sequence and any hardware: one VALID record beside an erased one |
| UpdateRuns.StableOrigin | src/platform/ota.rs:63-91 | over whole runs the confirmed image is the first one or was authentic under the trusted key, which nothing changes |
| UpdateRuns.CrashSafe | src/platform/ota.rs:326-425 | from one VALID record, after every run of requests, confirmations, raises and resets cut anywhere, the followed record names the last confirmed image unchanged, or a verified candidate backed by a VALID record for the other, untouched slot; that confirmed image is the first one or authentic |
| AntiRollback.AcceptedPlanFitsSlots | src/platform/security_epoch_maintenance.rs:70-108 | a plan that `prepare` accepts for the evidence gathered from both slots has a target that neither slot's own descriptor is below |
| AntiRollback.RaiseQualifiesBoth | src/platform/security_epoch_maintenance.rs:136-166 | preparing a change and attempting it, whatever the controller does and however much burns, loses no fuse bit, never passes the planned epoch, and leaves both slots at or above the counter; a true success reaches the planned epoch |
| AntiRollback.DispatchKeepsGuarded | src/usb_update.rs:249-252 | no vendor request can put an image below the counter where the bootloader would follow it |
| AntiRollback.BootKeepsGuarded | src/platform/ota.rs:63-72 | a reset keeps the counter at or below every image that can be followed |
| AntiRollback.LifetimeAntiRollback | src/usb_update.rs:249-252 | over whole runs with updates, boots, confirmations and prepared and attempted raises, the image of the followed record is never below the epoch that the fuses count |
| AntiRollback.ActivationSelectsExactly | src/usb_update.rs:597-604 | a completed activation makes the bootloader follow the candidate if and only if the active sequence was at most 0xFFFF_FFFD |
| UpdateAuthority.HandleAuthorized | src/usb_update.rs:126-150 | every handler keeps the authority monitor satisfied |
| UpdateAuthority.DispatchAuthorized | src/platform/vendor_commands.rs:23-56 | so does the consent dispatch: a session opens only after a press answered this very request |
| UpdateAuthority.OnlySuccessExtends | src/usb_update.rs:144-150 | nothing but successful erase, write or verification work moves the idle deadline: not a poll, and no request that opens no session, Info, Status, empty ones and refused BEGINs included |
| UpdateAuthority.WatchMeans | src/usb_update.rs:126-150 | the monitor's verdict means the stated facts about the log: who pressed, and that the session's readings never run back or pass a deadline |
| UpdateAuthority.EveryMutationAuthorized | src/platform/vendor_commands.rs:23-56 | in every run each erase, write and activate belongs to a session opened by a confirmed BEGIN and follows a fresh reading; the session's readings are non-decreasing, each within 120 s of the progress before it, the last within 900 s of the start; nothing follows an activation in its session |
| UpdateAuthority.RunningBackEndsAuthority | src/usb_update.rs:127-142 | a reading earlier than the one before it ends the authority, even when it is later than the start |
| UpdateCoverage.EraseCovers | src/usb_update.rs:353-373 | an erase step, whatever the hardware does, puts every byte up to the session's counter in the range of an erase call |
| UpdateCoverage.WriteCovers | src/usb_update.rs:299-341 | a WRITE puts every byte up to the counter in the range of a write call, and takes nothing from what was erased |
| UpdateCoverage.EraseThenWriteEverything | src/usb_update.rs:343-390 | in every run a session that receives has logged erase calls that cover its whole image in its target slot, and one that verifies or has activated write calls as well |
| UpdateCoverage.NoPressNoUpdate | src/platform/vendor_commands.rs:23-35 | no run in which the button is never pressed opens a session or changes a byte of a slot |
| UpdateAnswers.RefusedExactly | src/usb_update.rs:209-297 | for all six operations, a request that its own bytes, the session or the missing press stand against changes nothing and gets exactly that status |
| UpdateAnswers.PlainAnswers | src/usb_update.rs:524-556 | INFO and STATUS only report; a successful ABORT leaves no session and does nothing else |
| UpdateAnswers.StatusExpires | src/usb_update.rs:524-542 | a session out of time is over with whatever asks about it next, a STATUS included; one in time or already over is not changed by asking |
| UpdateAnswers.BeginExactly | src/usb_update.rs:253-297 | an approved BEGIN opens a session exactly when the records can be read and offer an update: for the request's size, hash and versions, the slot not followed and the next sequence |
| UpdateAnswers.WriteExactly | src/usb_update.rs:299-341 | a WRITE is refused by four checks in order, or puts exactly its data in its place and moves the session by that much, or fails it |
| UpdateAnswers.AdvanceExactly | src/usb_update.rs:343-390 | an ADVANCE of a session that is incomplete, finished or failed only answers so |
| UpdateAnswers.CheckExactly | src/usb_update.rs:127-142 | a live session fails at a reading if and only if it is before the last one, 900 s after the start or 120 s after the last progress |
| UpdateAnswers.AnswerBytes | src/usb_update.rs:558-585 | every answer byte by byte: status and phase by their numbers, session, floor and version |
| UpdateAnswers.FinishExactly | src/usb_update.rs:435-493 | with reads that work, verification fails with the first of six checks on the slot's bytes that fails, or goes on to activate |
| UpdateAnswers.ActivatesOnSameLayout | src/usb_update.rs:494-510 | whatever the session believes, nothing is activated unless the records still offer the update it began with |
| UpdateAnswers.AskedExactly | src/platform/vendor_commands.rs:23-35 | a BEGIN is put to the user exactly when nothing else stands against it, and only a press brings it back |
| HostProtocol.HostAndDeviceAgree | tools/salpa-usb-ota.py:94-124 | for any size both accept, the host takes an image exactly when the device's parser takes its header and its version is UTF-8, and reads the same fields |
| HostProtocol.DecodeWhatWasEncoded | tools/salpa-usb-ota.py:127-152 | decoding a status record returns exactly the fields the device encoded |
| HostProtocol.DecodesExactly | tools/salpa-usb-ota.py:127-152 | the host takes exactly the byte strings that are well-formed status records, and exactly these fields from them |
| HostProtocol.BeginFields | tools/salpa-usb-ota.py:203-212 | the BEGIN bytes the host lays out carry the fields the device reads back |
| HostProtocol.WriteFields | tools/salpa-usb-ota.py:235-247 | so do the WRITE bytes |
| HostProtocol.AdvanceFields | tools/salpa-usb-ota.py:227-234 | so do the ADVANCE bytes |
| HostInstall.AdvanceMakesHeadway | src/usb_update.rs:343-433 | every ADVANCE that succeeds and leaves work to do lowers the rank, whatever the hardware does; so the host's loops end |
| HostInstall.CallDevice | tools/salpa-usb-ota.py:186-190 | one exchange: what the host decodes is the device's state after the request |
| HostInstall.EraseAll | tools/salpa-usb-ota.py:227-234 | the erase loop ends; on a good run after exactly ceil(total / 65536) advances, ready to receive, with the whole of the image's range in the slot reading 0xff |
| HostInstall.WriteAll | tools/salpa-usb-ota.py:235-248 | the write loop ends; on a good run after exactly ceil(total / 992) writes, with the image in the slot |
| HostInstall.VerifyAll | tools/salpa-usb-ota.py:249-257 | the verify loop ends; on a good run after exactly ceil(total / 65536) advances, activated |
| HostInstall.BeginSession | tools/salpa-usb-ota.py:192-226 | INFO and BEGIN: on a good run a session for this image is open |
| HostInstall.BeginClaims | tools/salpa-usb-ota.py:203-226 | whatever the hardware does, a BEGIN that the host takes as accepted opened a session for its image's size, hash and versions |
| HostInstall.Install | tools/salpa-usb-ota.py:192-257 | install always ends; if it reports success, on any hardware, the reported slot holds bytes with the image's hash, its versions and a signature under the device's trusted key, and the record for it is in flash; on a good run it does succeed, with exactly those counts, the image itself in the other slot and the running slot untouched |
| InstallRuns.FinishGood | src/usb_update.rs:435-522 | a genuine image passes every check of the device and is activated |
| InstallRuns.EraseGood | src/usb_update.rs:353-373 | on a good run a step leaves the slot with exactly the next 64 KiB, or the rest, set to 0xff |
| InstallRuns.BeginGood | src/usb_update.rs:229-297 | a well-formed, approved BEGIN opens a session for the image |
| CtapHid.CtapHid.StateIsWf | src/ctaphid.rs:140-159 | the class invariant implies the engine's reachable-state invariant |
| CtapHid.CtapHid.constructor | src/ctaphid.rs:141-159 | a new engine is idle with empty buffers and queue, for every capacity from 17 to 7609 |
| CtapHid.CtapHid.AbortTransaction | src/ctaphid.rs:516-523 | drops the transaction and its keepalive and zeroes both buffers |
| CtapHid.CtapHid.QueueError | src/ctaphid.rs:545-557 | appends one error a channel to a gap-free queue of at most eight |
| CtapHid.CtapHid.AllocateChannel | src/ctaphid.rs:496-503 | moves to the next channel that is neither reserved nor broadcast; the loop ends |
| CtapHid.CtapHid.DispatchInit | src/ctaphid.rs:461-494 | answers INIT in place with nonce, channel, version and capabilities, or refuses |
| CtapHid.CtapHid.Dispatch | src/ctaphid.rs:407-459 | starts the application request, the PING echo or the refusal that the whole message calls for |
| CtapHid.CtapHid.IngestContinuation | src/ctaphid.rs:372-405 | appends a packet's chunk in place, refuses a wrong sequence number, dispatches the complete message |
| CtapHid.CtapHid.Accept | src/ctaphid.rs:212-244 | starts a message at an idle engine |
| CtapHid.CtapHid.Ingest | src/ctaphid.rs:176-245 | the arbitration of the standard: busy, cancel, resynchronize, abort or accept |
| CtapHid.CtapHid.IngestReport | src/ctaphid.rs:168-174 | a report of the wrong length discards everything; otherwise says whether the application was interrupted |
| CtapHid.CtapHid.TransportFault | src/ctaphid.rs:163-166 | everything is discarded, errors included |
| CtapHid.CtapHid.Reply | src/ctaphid.rs:275-289 | an answer replaces the request in one step, or is refused and the request dropped |
| CtapHid.CtapHid.KeepAlive | src/ctaphid.rs:292-298 | a keepalive is queued only for a request being served |
| CtapHid.CtapHid.Expire | src/ctaphid.rs:300-310 | a transfer idle for more than 550 ms, modulo clock wrap, is dropped with a timeout |
| CtapHid.CtapHid.NextPacket | src/ctaphid.rs:312-340 | the next packet is the first error, else the keepalive, else the frame at the offset, zero-padded |
| CtapHid.CtapHid.PacketSent | src/ctaphid.rs:342-370 | what was just sent is consumed: error slots move up, the offset moves on, the finished response is zeroed |
| CtapHid.QueueIsUnique | src/ctaphid.rs:545-557 | the slot array holds exactly one queue |
| CtapHidEngine.SequenceFits | src/ctaphid.rs:380-391 | at every packet boundary position = 57 + 59 * sequence with sequence below 128, up to the largest message |
| CtapHidEngine.DoKeepsWf | src/ctaphid.rs:140-370 | every operation keeps: one transaction at most, at a packet boundary, one error a channel, at most eight |
| CtapHidEngine.ReachableWf | src/ctaphid.rs:140-370 | so does every run, and a continuation packet it sends never has its top bit set |
| CtapHidEngine.KeepaliveOutlivesOnlyOversizeReplies | src/ctaphid.rs:275-298 | one operation leaves a keepalive without its request if and only if it is an answer that is too long while one is pending |
| CtapHidEngine.OrphansComeFromOversizeReplies | src/ctaphid.rs:275-298 | over whole runs, a keepalive without its request exists in some state if and only if some answer was too long while a keepalive was pending |
| CtapHidTheorems.OrphanIsReachable | src/ctaphid.rs:275-298 | such a state is reachable from power-up for every capacity, in five operations |
| CtapHidTheorems.DrainIsFragments | src/ctaphid.rs:312-370 | past its notices an engine sends exactly the canonical fragments of its message, in order |
| CtapHidTheorems.FeedRest | src/ctaphid.rs:372-405 | the continuation packets of a message complete it, whatever pads them and whenever they come |
| CtapHidTheorems.ReassemblyDelivers | src/ctaphid.rs:212-244 | packets that carry a message make an idle engine do exactly what it does with the whole message, with no earlier event |
| CtapHidTheorems.RoundTrip | src/ctaphid.rs:230-405 | what one engine sends, another engine's application receives: same channel, command and bytes, for every length up to the capacity |
| CtapHidTheorems.PingEchoes | src/ctaphid.rs:420-426 | a PING comes back as the canonical fragments of what arrived |
| CtapHidTheorems.ForeignPacketOnlyQueues | src/ctaphid.rs:185-192 | a packet on another channel raises no event and changes only the pending errors, by appending |
| CtapHidTheorems.OwnStepIgnoresErrors | src/ctaphid.rs:176-405 | no operation on the active side can tell which errors are pending |
| CtapHidTheorems.NonInterference | src/ctaphid.rs:176-212 | over whole runs, foreign packets inserted anywhere change no event, result, data packet, buffer, keepalive or counter |
| CtapHidAnswers.BroadcastGrants | src/ctaphid.rs:461-503 | a broadcast INIT below the last channel number grants one that was not in use and now is; the answer carries the nonce, then that channel big-endian, then version and capabilities |
| CtapHidAnswers.InitKeepsChannel | src/ctaphid.rs:461-494 | an INIT on a channel in use ends what was going on with it, and its answer names that channel |
| CtapHidAnswers.GrantsAreDistinct | src/ctaphid.rs:496-507 | over whole runs with fewer than 0xFFFF_FFFF channels in use no channel is granted twice, none was in use before, and all stay in use |
| CtapHidAnswers.FragmentsAreBytes | src/ctaphid.rs:312-370 | packet i of a message is these 64 bytes: channel, command and big-endian length or sequence number i - 1, 57 or 59 bytes of payload, zeros; and there are as many as it takes |
| CtapHidAnswers.NoticeBytes | src/ctaphid.rs:312-352 | pending errors leave first, in order, then a keepalive, each as one packet with its standard code, and nothing else changes |
| CtapHidAnswers.IdleRefuses | src/ctaphid.rs:212-244 | which packets an idle engine refuses, and that each refusal queues its error code for its channel and does nothing else |
| CtapHidAnswers.IdleAccepts | src/ctaphid.rs:212-244 | what an idle engine takes from a packet on a channel in use: a whole request, an echo, or the start of a longer message |
| CtapHidAnswers.IdleCancel | src/ctaphid.rs:212-244 | a CANCEL that finds nothing to cancel does nothing, and on a channel not in use reports it |
| CtapHidAnswers.BusyAnswers | src/ctaphid.rs:185-210 | in the middle of a transaction: others are told BUSY, a CANCEL from others is ignored, one on the served channel raises the event and drops the keepalive, anything else ends the transaction with a sequence error |
| CtapHidAnswers.ContinuationRefused | src/ctaphid.rs:372-391 | a continuation out of order ends the message with a sequence error; one nobody waits for is ignored |
| CtapHidAnswers.TimesOutExactly | src/ctaphid.rs:300-310 | a message times out if and only if more than 550 ms have passed, on the wrapping clock, since its last packet |
| CtapHidAnswers.ReportsInterrupt | src/ctaphid.rs:163-174 | a report of the wrong length discards everything; the flag says exactly when a request being served was given up |
| CtapHidAnswers.ReplyIsSent | src/ctaphid.rs:275-290 | an answer that fits is sent as its fragments; one that does not costs the request an error; without a request nothing happens |
| CtapHidAnswers.KeepaliveIsForRequest | src/ctaphid.rs:292-298 | a keepalive is taken exactly while a request is being served, and leaves as one packet on its channel |
| Xts.StepTweak | tools/macos-key-helper/Crypto.swift:126-135 | the in-place byte loop is one doubling of the tweak |
| Xts.DoubledIsTimesX | tools/macos-key-helper/Crypto.swift:126-135 | doubling is multiplication by x in GF(2^128) modulo x^128 + x^7 + x^2 + x + 1 (IEEE Std 1619, section 5) |
| Xts.CryptUnit | tools/macos-key-helper/Crypto.swift:114-138 | the reversed 128-byte unit loop computes every 16-byte block as the standard does, last tweak first, unless one of its nine AES calls fails |
| Xts.Xts | tools/macos-key-helper/Crypto.swift:105-141 | fails exactly on invalid input or a failing AES call; otherwise the widened, reversed loop equals the block-wise definition, and no unit address exceeds 32 bits |
| Xts.BlockRoundTrip | tools/macos-key-helper/Crypto.swift:119-125 | one pass undoes the other on every block, at every address |
| Xts.RoundTrip | tools/macos-key-helper/Crypto.swift:105-141 | decrypting an encryption (or the reverse) returns the data, for every address, key and length |
| Xts.Locality | tools/macos-key-helper/Crypto.swift:105-141 | the result on `a + b` is the result on `a` followed by the result on `b` at its own address |
| Xts.XtsAt | tools/macos-key-helper/Crypto.swift:116-139 | each 16-byte block of the result depends on the block in its place, its address and the key alone |
| Xts.RawTweakIsAddress | tools/macos-key-helper/Crypto.swift:117-121 | the block that is encrypted for a unit's tweak is its address as a 128-bit little-endian number |
| Xts.TweakIsPower | tools/macos-key-helper/Crypto.swift:128-136 | tweak j of a unit is its first tweak times x^j in the field |
| Xts.UnitIsStandard | tools/macos-key-helper/Crypto.swift:116-138 | reversed, a 128-byte unit is a data unit of IEEE Std 1619: block j is masked with the address encrypted under the second half of the key, times x^j, around one AES call under the first half |
| Xts.Widened | tools/macos-key-helper/Crypto.swift:110-112 | zeros in front and behind do not change what becomes of the data |
| SecurityEpoch.Prepare | src/platform/security_epoch.rs:107-168 | the first failing check decides the error; a prepared change comes only from matching identity, protected fuses and two compatible verified slots, and is exactly a counter raise |
| SecurityEpoch.EpochCounts | src/platform/security_epoch.rs:103-105 | the epoch is the number of ones in bits 11 to 26 of BLOCK0's fifth word |
| SecurityEpoch.RefusalExactly | src/platform/security_epoch.rs:107-149 | a plan is refused with the first of fifteen checks that fails, on identities, fuse bits, counter, slots and digests, and accepted if none does |
| SecurityEpoch.LowestFreeReachesTarget | src/platform/security_epoch.rs:151-158 | setting the lowest free bits that the loop picks reaches the target count exactly |
| SecurityEpoch.NoFreeBitSkipped | src/platform/security_epoch.rs:151-158 | no free bit below a chosen one is left out |
| SecurityEpoch.RaiseIsExact | src/platform/security_epoch.rs:159-167 | the planned block counts to exactly the target, keeps every set bit and every bit outside the field |
| SecurityEpoch.ProgramsOnlyNewCounterBits | src/platform/security_epoch.rs:78-84 | the program words hold only clear counter bits, and burning them yields exactly the planned block |
| EfuseTransaction.Transaction.AttemptChange | src/platform/security_epoch_transaction.rs:81-143 | log and result are `Attempt`'s, whose every call `AttemptExactly` pins down; a second attempt makes no call, so over any number of attempts the fuses are programmed at most once |
| EfuseTransaction.AttemptExactly | src/platform/security_epoch_transaction.rs:81-143 | for every controller: each right answer leads to the next call, the first wrong one before programming ends the attempt with its own error and staging cleared, programming happens exactly when all eleven calls before it were right, and the reads after it decide the result |
| EfuseTransaction.BurnsOnlyWhenReady | src/platform/security_epoch_transaction.rs:87-104 | a burn or a success was preceded by APB at 80 MHz, idle, timing set, a refresh, an error-free snapshot equal to the plan's block, and staging cleared and read back empty |
| EfuseTransaction.ProgramsOnceAfterChecks | src/platform/security_epoch_transaction.rs:105-125 | for every controller: programmed at most once, only right after staging read back, idle and BLOCK0 unchanged; staging is always cleared |
| EfuseTransaction.SuccessReadsBack | src/platform/security_epoch_transaction.rs:123-142 | success means one reported burn, staging empty, refreshed, no coding errors and BLOCK0 equal to the plan |
| SecurityEpoch.BurnStaysWithin | src/platform/security_epoch.rs:76-100 | however much of a change burns, no bit is lost and the counter stays between the old count and the target |
| EfuseTransaction.AttemptStaysWithin | src/platform/security_epoch_transaction.rs:81-143 | so it does after any attempt against any controller; a success whose last snapshot was true has reached the target |
| EfuseTransaction.RaiseSound | src/platform/security_epoch_transaction.rs:81-143 | plan accepted and attempt succeeded: the counter reads the target, nothing else moved, both slots admit it |
| PresenceGate.PresenceGate.Poll | src/platform/presence_gate.rs:51-97 | the method moves the fields exactly as the step function |
| PresenceGate.ApprovalProvesGesture | src/platform/presence_gate.rs:51-97 | an approval on any trace proves a 30 ms release, a fresh press of 30 ms or five seconds and (long form) a 30 ms final release in order, with no uncertain sample after the press, before the deadline, with no cancellation, fault or clock reversal |
| PresenceGate.OneShot | src/platform/presence_gate.rs:51-62 | after any verdict every later poll answers no |
| PresenceGate.RefusedAtOnce | src/platform/presence_gate.rs:51-62 | a poll is answered no at once exactly if it is cancelled, faulty, before the last poll or at the deadline |
| PresenceGate.OtherStretch | src/platform/presence_gate.rs:63-95 | a stretch at a level that is not awaited only is remembered, except that doubt during the final release starts the gesture over |
| PresenceGate.StretchMovesOn | src/platform/presence_gate.rs:71-95 | a clean stretch, with or without polls that bring no sample, moves the gate on exactly when its samples span the required time |
| PresenceGate.CleanGestureApproved | src/platform/presence_gate.rs:35-97 | a clean gesture whose samples span the required times is always approved, whatever polls without a sample come between |
| MaintenancePresence.MaintenancePresence.Poll | src/platform/maintenance_presence.rs:35-65 | the method moves the fields exactly as the step function |
| MaintenancePresence.ApprovalProvesGesture | src/platform/maintenance_presence.rs:35-65 | an approval on any trace proves release, five-second hold and release in order, within thirty seconds, with no cancellation |
| MaintenancePresence.OneShot | src/platform/maintenance_presence.rs:33-43 | after any verdict every later poll answers no |
| MaintenancePresence.RefusedAtOnce | src/platform/maintenance_presence.rs:36-43 | a poll is answered no at once exactly if it is cancelled, before the last change, or thirty seconds after the start |
| MaintenancePresence.IdleStretch | src/platform/maintenance_presence.rs:44-65 | a stretch at a level the stage does not wait for only is remembered |
| MaintenancePresence.EarlyRelease | src/platform/maintenance_presence.rs:53-58 | letting go during the hold starts the whole gesture over, the release that then begins counting for it |
| MaintenancePresence.Hold | src/platform/maintenance_presence.rs:49-58 | a clean press counts as the hold if and only if it lasts five seconds and an earlier poll already falls 25 ms into it |
| MaintenancePresence.CleanGestureApproved | src/platform/maintenance_presence.rs:24-65 | a clean gesture sampled that densely is always approved |
| FlashWindow.Address | src/platform/usb_update.rs:33-41 | accepts exactly the ranges inside a slot and gives their flat address, with no overflow |
| FlashWindow.SlotsAreSeparate | src/platform/usb_update.rs:33-41 | a change inside a slot's range is a splice into that slot and leaves the other slot, the boot records and the credential store alone |
| FlashWindow.Window.MapPageAndCopy | src/platform/flash_encryption.rs:199-231 | success returns flat flash bytes and puts the fixed mapping back; failure leaves the window where the failing call left it |
| FlashWindow.Window.ReadUpdate | src/platform/flash_encryption.rs:235-257 | any address and length: success returns exactly the flat bytes, with two mapping calls a page, and restores the window; failure happens only at a failing mapping call |
| FlashWindow.FailureLeavesWindow | src/platform/flash_encryption.rs:199-231 | either mapping call of a page may fail, and either failure may leave the window on any page |
| FlashWindow.Window.WriteUpdate | src/platform/flash_encryption.rs:286-317 | 32-byte blocks: on erased blocks success stores exactly the data; nothing outside the range changes, even on failure; it fails exactly when disabled, unaligned or at the first failing call, with that call's code |
| FlashWindow.Window.EraseUpdate | src/platform/flash_encryption.rs:323-351 | sector by sector: success leaves the whole range erased; nothing outside it changes, even on failure; it fails exactly when disabled, unaligned, unmapped or at the first failing call |
| FlashWindow.Window.Read | src/platform/usb_update.rs:145-151 | a slot read is the slot's bytes |
| FlashWindow.Window.Write | src/platform/usb_update.rs:80-88 | a slot write on erased blocks is a splice into the slot |
| FlashWindow.Window.Erase | src/platform/usb_update.rs:55-68 | a slot erase covers exactly the asked range |
| FlashWindow.WrittenIsReadBack | src/platform/flash_encryption.rs:286-351 | erase, write, read gives back what was written, and the other slot is as before |
| FlashWindow.MappedExactly | src/platform/flash_encryption.rs:62-75 | mapped are exactly the boot area, the first page of either slot and the credential store, each range within one window, at these virtual addresses |
| FlashWindow.MappingsNeverAlias | src/platform/flash_encryption.rs:62-75 | two mapped ranges share a virtual byte exactly where they share the physical one |
| MemoryProtection.Registers.Install | src/platform/memory_protection.rs:97-131 | the loops over the register tables produce exactly the specified trace of accesses and result |
| MemoryProtection.Registers.ReplaceBits | src/platform/memory_protection.rs:82-85 | a read, then one write that replaces only the field's bits |
| MemoryProtection.LockedMeansNoWrites | src/platform/memory_protection.rs:98-106 | if any lock was already set, nothing is written at all |
| MemoryProtection.LocksOnlyAfterReadback | src/platform/memory_protection.rs:107-125 | for all register behaviour each write keeps its register's last-read bits outside the mask, or is a lock written right after all twelve registers read back as the policy |
| MemoryProtection.UpdatesTouchNoLock | src/platform/memory_protection.rs:19-31 | no update before the locks addresses a lock register |
| MemoryProtection.OkMeansLocked | src/platform/memory_protection.rs:125-130 | success ends with sixteen reads: every lock set and the whole policy in force |
| MemoryProtection.ConfiguresExactly | src/platform/memory_protection.rs:97-131 | with every lock open: twenty read-and-write pairs install the policy, then exactly if twelve reads, the locks and sixteen more reads match is the result a success |
| MemoryProtection.LockedExactly | src/platform/memory_protection.rs:98-106 | with a lock set already, nothing is written and success means exactly that all locks are set and the policy is in force |
| MemoryProtection.UpdatesInOrder | src/platform/memory_protection.rs:107-116 | each monitor's fault is cleared and it is disabled before the first permission, and enabled after the last; the check wants it enabled with no fault |
| MemoryProtection.MatchesIsMasked | src/platform/memory_protection.rs:87-95 | a register passes a check exactly if it agrees with the expected value inside the mask and the expected value is clear outside it |
| MemoryProtection.PolicyPermits | src/platform/memory_protection.rs:52-75 | which bus may fetch, read or write which memory: code and coarse blocks execute and are read on the instruction bus and are only read on the data bus; data and RTC memory are read and written on one bus each; nothing else |
| MemoryProtection.NothingIsWritableAndExecutable | src/platform/memory_protection.rs:1-7 | no memory that any bus may write can be fetched from on any bus |
| MemoryProtection.RightsAreInstalled | src/platform/memory_protection.rs:19-31 | every bit that gives a right lies inside its register's mask, so it is installed and read back |
| MemoryProtection.AcceptsExactly | src/platform/memory_protection.rs:45-51 | a policy exists exactly for word-aligned splits of the fine region whose alias is the data start |
| MemoryProtection.MergedMatches | src/platform/memory_protection.rs:44-75 | every policy value fits its mask, so a faithful register passes the check that follows its update |
| MemoryProtection.SplitsAreAliases | src/platform/memory_protection.rs:44-75 | for every legal split the IRAM and DRAM fields decode to aliases of one address |

## Left out

- SHA-256, RSA-PSS and AES themselves: arbitrary functions, predicates and permutations.
- The ESP-IDF bootloader, ROM calls, cache and MMU hardware: environment steps with the assumptions above.
- Electrical behaviour of flash below the byte: a cut write is a prefix of its plaintext, writes do not AND into old
  contents, and a record's sector is erased whole or not at all.
- FlashWindow.Window.WriteUpdate: requires an end address within 32 bits, because `address` has already refused any other.
- FlashWindow.Window.EraseUpdate: does not model what an erased sector reads as through the decrypting cache; any bytes.
- The `write` and `erase` variants that also invalidate a fixed mapping, and `initialize`.
- FlashBackend.FlashDevice.Write: leaves the 32-byte blocks below it to `FlashWindow`; a failing call may leave any bytes in its range.
- UsbUpdaterClass.UsbUpdater.HandleRequest: the session is one field holding a value, rather than an object of its own.
- UpdateAuthority.EveryMutationAuthorized: readings taken by a BEGIN that does not open a session are not compared with the open session's readings.
- HostInstall.Install: progress output, device discovery and keepalive callbacks are not modelled; UTF-8 validity is a parameter; what success means on arbitrary hardware is stated for a hash of 32 bytes, as SHA-256 has.
- HostProtocol.HostAndDeviceAgree: does not model reading the file.
- Xts.Xts: which AES calls fail is a parameter; the cipher itself never depends on it.
- EfuseTransaction.Transaction.AttemptChange: does not model time, or the two samples behind the controller's idle answer (`controller_commands_idle`).
- AntiRollback.RaiseQualifiesBoth: the chip revision, the fallback digest, the long press and the second qualification before a burn are further refusals and are not modelled; a raise is one step of a run.
- CtapHidTheorems.NonInterference: sending is modelled as draining queued errors and then one more packet, since a queued error goes out first.
- CtapHid.CtapHid.AllocateChannel: does not model the reuse of channel numbers after 2^32 allocations as a fault.
- MemoryProtection.Registers.Install: does not model the status report, the linker symbols behind the split, or the fault interrupt.
- PresenceGate.CleanGestureApproved: the samples are given; how an ADC reading becomes a level is not modelled.
- Trussed, littlefs2 and the FIDO authenticator, storage and request dispatch glue.
- USB enumeration and polling, GPIO, LED, Keychain and user-interface code.
- Build, packaging, release and manifest scripts, and the flashing tools.
- The fixed-field status reports and single checks of the firmware: security status, epoch preview, identity, RNG
  health, provisioning and request completion.
