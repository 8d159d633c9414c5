/**
 * The two boot-selection records of the A/B scheme: their encoding, which one the bootloader
 * selects, and what an interrupted rewrite of one of them can select instead.
 */
module OtaMetadata {
  import opened Words
  import opened Crc

  const OTA_ENTRY_SIZE: nat := 32
  const OTA_0_OFFSET: u32 := 0x2_0000
  const OTA_1_OFFSET: u32 := 0x20_0000

  // ESP-IDF's image states. A freshly activated record is NEW.
  const STATE_NEW: u32 := 0
  const STATE_PENDING_VERIFY: u32 := 1
  const STATE_VALID: u32 := 2
  const STATE_INVALID: u32 := 3
  const STATE_ABORTED: u32 := 4

  type Record = r: Bytes | |r| == OTA_ENTRY_SIZE witness Fill(OTA_ENTRY_SIZE, 0xff)
  const ERASED: Record := Fill(OTA_ENTRY_SIZE, 0xff)
  type Records = r: seq<Record> | |r| == 2 witness [ERASED, ERASED]

  datatype OtaEntry = OtaEntry(sequence: u32, state: u32, crc: u32)
  {
    predicate IsSelectable() {
      sequence != U32_MAX && state != STATE_INVALID && state != STATE_ABORTED && crc == OtaCrc(sequence)
    }

    function EncodeWithState(newState: u32): Record {
      ToLe32(sequence) + Fill(20, 0xff) + ToLe32(newState) + ToLe32(OtaCrc(sequence))
    }
  }

  function Decode(bytes: Record): OtaEntry {
    OtaEntry(FromLe32(bytes[0..4]), FromLe32(bytes[24..28]), FromLe32(bytes[28..32]))
  }

  type Entries = e: seq<OtaEntry> | |e| == 2 witness [OtaEntry(0, 0, 0), OtaEntry(0, 0, 0)]

  function DecodeBoth(r: Records): Entries {
    [Decode(r[0]), Decode(r[1])]
  }

  /** The record the bootloader follows: the selectable one of the higher sequence. */
  function ActiveEntry(e: Entries): (active: Option<nat>)
    ensures active.Some? ==> active.value < 2
  {
    match (e[0].IsSelectable(), e[1].IsSelectable())
    case (true, true) => if e[0].sequence >= e[1].sequence then Some(0) else Some(1)
    case (true, false) => Some(0)
    case (false, true) => Some(1)
    case (false, false) => None
  }

  /** The bootloader's rule: the selectable record of the highest sequence, the first one on a tie. */
  lemma ActiveEntryIsGreatest(e: Entries)
    ensures ActiveEntry(e).None? <==> !e[0].IsSelectable() && !e[1].IsSelectable()
    ensures ActiveEntry(e).Some? ==>
              var i := ActiveEntry(e).value;
              && e[i].IsSelectable()
              && (e[1 - i].IsSelectable() ==> e[1 - i].sequence <= e[i].sequence)
              && (e[1 - i].IsSelectable() && e[1 - i].sequence == e[i].sequence ==> i == 0)
  {
  }

  function SlotOf(sequence: u32): Option<byte> {
    if sequence == 0 then None else Some((sequence - 1) % 2)
  }

  function UpdateSlotOffset(slot: byte): Option<u32> {
    match slot
    case 0 => Some(OTA_0_OFFSET)
    case 1 => Some(OTA_1_OFFSET)
    case _ => None
  }

  function SlotOffset(sequence: u32): Option<u32> {
    if sequence == 0 then None
    else if (sequence - 1) % 2 == 0 then Some(OTA_0_OFFSET)
    else Some(OTA_1_OFFSET)
  }

  datatype UpdateLayout = UpdateLayout(activeSlot: byte, activeSequence: u32, activationEntry: byte)

  /** Updates are offered only from a confirmed image that is really the one executing. */
  function UpdateLayoutFromEntries(e: Entries, running: u32): Option<UpdateLayout> {
    var active := ActiveEntry(e);
    if active.None? then None else
    var entry := e[active.value];
    if entry.state != STATE_VALID then None
    else if SlotOffset(entry.sequence) != Some(running) then None
    else Some(UpdateLayout((entry.sequence - 1) % 2, entry.sequence, 1 - active.value))
  }

  datatype QualifiedLayout = QualifiedLayout(runningSlot: byte, sequences: seq<u32>)

  predicate Qualifies(e: OtaEntry, slot: byte) {
    e.IsSelectable() && e.state == STATE_VALID && SlotOf(e.sequence) == Some(slot)
  }

  /**
   * Both records are VALID, each for its own slot, and the one the bootloader selects names the
   * executing image.
   */
  ghost predicate Qualified(e: Entries, running: u32, layout: QualifiedLayout) {
    && layout.runningSlot < 2
    && UpdateSlotOffset(layout.runningSlot) == Some(running)
    && (|| (Qualifies(e[0], 0) && Qualifies(e[1], 1) && layout.sequences == [e[0].sequence, e[1].sequence])
        || (Qualifies(e[1], 0) && Qualifies(e[0], 1) && layout.sequences == [e[1].sequence, e[0].sequence]))
    && layout.sequences[1 - layout.runningSlot] <= layout.sequences[layout.runningSlot]
  }

  method QualifiedLayoutFromEntries(e: Entries, running: u32) returns (layout: Option<QualifiedLayout>)
    ensures layout.Some? ==> Qualified(e, running, layout.value)
    ensures layout.None? ==> forall l :: !Qualified(e, running, l)
  {
    hide OtaCrc;
    var active := ActiveEntry(e);
    if active.None? { return None; }
    var sequences: seq<u32> := [0, 0];
    for i := 0 to 2
      invariant i > 0 ==> Qualifies(e[0], 0) || Qualifies(e[0], 1)
      invariant i > 1 ==> Qualifies(e[1], 0) || Qualifies(e[1], 1)
      invariant i == 0 ==> sequences == [0, 0]
      invariant i == 1 && SlotOf(e[0].sequence) == Some(0) ==> sequences == [e[0].sequence, 0]
      invariant i == 1 && SlotOf(e[0].sequence) == Some(1) ==> sequences == [0, e[0].sequence]
      invariant i == 2 ==> SlotOf(e[0].sequence) != SlotOf(e[1].sequence)
      invariant i == 2 && SlotOf(e[0].sequence) == Some(0) ==> sequences == [e[0].sequence, e[1].sequence]
      invariant i == 2 && SlotOf(e[0].sequence) == Some(1) ==> sequences == [e[1].sequence, e[0].sequence]
    {
      var entry := e[i];
      if !entry.IsSelectable() || entry.state != STATE_VALID { return None; }
      var offset := SlotOffset(entry.sequence);
      if offset.None? { return None; }
      var slot := if offset.value == OTA_0_OFFSET then 0 else 1;
      if sequences[slot] != 0 { return None; }
      sequences := sequences[slot := entry.sequence];
    }
    var chosen := e[active.value].sequence;
    if SlotOffset(chosen) != Some(running) { return None; }
    layout := Some(QualifiedLayout((chosen - 1) % 2, sequences));
  }

  /** The last guard before the record is written. */
  predicate ActivationIsValid(layout: UpdateLayout, targetSlot: byte, sequence: u32, activationEntry: byte) {
    && targetSlot <= 1
    && activationEntry <= 1
    && targetSlot != layout.activeSlot
    && activationEntry == layout.activationEntry
    && SlotOf(sequence) == Some(targetSlot)
    && sequence > layout.activeSequence
  }

  const APP_DESCRIPTOR_OFFSET: nat := 32
  const APP_DESCRIPTOR_SIZE: nat := 256
  const APP_DESCRIPTOR_MAGIC: u32 := 0xabcd_5432
  const APP_VERSION_OFFSET: nat := 16
  const APP_VERSION_SIZE: nat := 32

  predicate DescriptorMatchesVersion(descriptor: Bytes, version: Bytes)
    requires |descriptor| == APP_DESCRIPTOR_SIZE
  {
    && FromLe32(descriptor[0..4]) == APP_DESCRIPTOR_MAGIC
    && 0 < |version| < APP_VERSION_SIZE
    && var field := descriptor[APP_VERSION_OFFSET..APP_VERSION_OFFSET + APP_VERSION_SIZE];
       field[..|version|] == version && field[|version|] == 0
  }

  /** A fallback image must never confirm the candidate in the other slot. */
  predicate ConfirmationMatchesRunningImage(
    entry: OtaEntry, running: u32, descriptor: Bytes, version: Bytes, secureVersion: u32
  )
    requires |descriptor| == APP_DESCRIPTOR_SIZE
  {
    && entry.state == STATE_PENDING_VERIFY
    && SlotOffset(entry.sequence) == Some(running)
    && DescriptorMatchesVersion(descriptor, version)
    && FromLe32(descriptor[4..8]) == secureVersion
  }

  /** What flash holds after the first `written` bytes of a record reached an erased sector. */
  function Torn(record: Record, written: nat): (r: Record) {
    if written >= OTA_ENTRY_SIZE then record else record[..written] + Fill(OTA_ENTRY_SIZE - written, 0xff)
  }

  /** Consecutive sequences belong to different slots. */
  lemma OtherSlot(sequence: u32)
    requires 0 < sequence < U32_MAX
    ensures SlotOf(sequence).value < 2
    ensures SlotOf(sequence + 1) == Some(1 - SlotOf(sequence).value)
  {
  }

  lemma DecodeUpdate(r: Records, index: nat, replacement: Record)
    requires index < 2
    ensures DecodeBoth(r[index := replacement]) == DecodeBoth(r)[index := Decode(replacement)]
  {
    hide Decode;
  }

  /** The executing image is the one of the slot that a record's sequence names: odd ones slot 0, even ones slot 1. */
  predicate Executes(sequence: u32, running: u32) {
    sequence != 0 && running == if sequence % 2 == 1 then 0x2_0000 else 0x20_0000
  }

  /** Which updates a pair of records offers, from all its four facts, and that it offers one otherwise never. */
  lemma LayoutExactly(e: Entries, running: u32)
    ensures forall l :: UpdateLayoutFromEntries(e, running) == Some(l) <==>
              && l.activationEntry < 2 && ActiveEntry(e) == Some((1 - l.activationEntry) as nat)
              && e[1 - l.activationEntry].state == 2 && e[1 - l.activationEntry].sequence == l.activeSequence
              && Executes(l.activeSequence, running) && l.activeSlot == (l.activeSequence + 1) % 2
  {
    hide ActiveEntry;
  }

  /** Where a record keeps its three words, and when the bootloader takes it at all. */
  lemma RecordBytes(r: Record, e: OtaEntry, state: u32)
    ensures Decode(r).IsSelectable() <==>
              && r[0..4] != [0xff, 0xff, 0xff, 0xff] && FromLe32(r[24..28]) !in {3, 4}
              && FromLe32(r[28..32]) == OtaCrc(FromLe32(r[0..4]))
    ensures e.EncodeWithState(state)[0..4] == ToLe32(e.sequence) && e.EncodeWithState(state)[4..24] == Fill(20, 0xff)
    ensures e.EncodeWithState(state)[24..28] == ToLe32(state)
    ensures e.EncodeWithState(state)[28..32] == ToLe32(OtaCrc(e.sequence))
  {
    hide OtaCrc;
    if FromLe32(r[0..4]) == U32_MAX { Le32Injective(r[0..4], [0xff, 0xff, 0xff, 0xff]); }
  }

  // Encoding and interrupted writes.

  lemma DecodeEncode(e: OtaEntry, state: u32)
    ensures Decode(e.EncodeWithState(state)) == OtaEntry(e.sequence, state, OtaCrc(e.sequence))
  {
    hide OtaCrc;
    var r := e.EncodeWithState(state);
    assert r[0..4] == ToLe32(e.sequence);
    assert r[24..28] == ToLe32(state);
    assert r[28..32] == ToLe32(OtaCrc(e.sequence));
    Le32RoundTrip(e.sequence);
    Le32RoundTrip(state);
    Le32RoundTrip(OtaCrc(e.sequence));
  }

  /**
   * A record cut short is either not selectable or is byte for byte the complete record: an
   * interrupted write can never make the bootloader follow anything else.
   */
  lemma TornRecord(e: OtaEntry, state: u32, written: nat)
    requires e.sequence != 0
    ensures var r := Torn(e.EncodeWithState(state), written);
            Decode(r).IsSelectable() ==> r == e.EncodeWithState(state)
  {
    hide OtaCrc;
    DecodeEncode(e, state);
    if written <= 28 {
      TornBeforeCrc(e.EncodeWithState(state), written);
    } else if written < OTA_ENTRY_SIZE {
      TornInsideCrc(e.EncodeWithState(state), written);
    }
  }

  /** A record of sequence zero keeps its sequence however little of it is written, when it is selectable at all. */
  lemma TornSequenceZero(e: OtaEntry, state: u32, written: nat)
    requires e.sequence == 0
    ensures var r := Torn(e.EncodeWithState(state), written);
            Decode(r).IsSelectable() ==> Decode(r).sequence == 0
  {
    hide OtaCrc;
    var full := e.EncodeWithState(state);
    var r := Torn(full, written);
    DecodeEncode(e, state);
    if written >= 4 {
      assert r[0..4] == full[0..4];
    } else {
      assert r[28..32] == [0xff, 0xff, 0xff, 0xff];
      OtaCrcErased(Decode(r).sequence);
    }
  }

  /**
   * Where the guarantee ends: at sequence zero, whose checksum is the erased word, a record cut
   * after its first four bytes is already selectable, and in a state nobody wrote.
   */
  lemma TornRecordExactly(e: OtaEntry, state: u32)
    ensures (forall written: nat ::
               var r := Torn(e.EncodeWithState(state), written);
               Decode(r).IsSelectable() ==> r == e.EncodeWithState(state))
            <==> e.sequence != 0 || state == U32_MAX
  {
    hide OtaCrc;
    var full := e.EncodeWithState(state);
    DecodeEncode(e, state);
    if e.sequence != 0 {
      forall written: nat ensures var r := Torn(full, written); Decode(r).IsSelectable() ==> r == full {
        TornRecord(e, state, written);
      }
    } else {
      OtaCrcErased(0);
      Le32RoundTrip(0);
      var cut := Torn(full, 4);
      assert ToLe32(U32_MAX) == [0xff, 0xff, 0xff, 0xff];
      assert cut[0..4] == full[0..4];
      assert cut[24..28] == [0xff, 0xff, 0xff, 0xff] && cut[28..32] == [0xff, 0xff, 0xff, 0xff];
      assert Decode(cut) == OtaEntry(0, U32_MAX, U32_MAX) && Decode(cut).IsSelectable();
      if state == U32_MAX {
        assert full == ToLe32(0) + Fill(28, 0xff);
        forall written: nat ensures var r := Torn(full, written); Decode(r).IsSelectable() ==> r == full {
          TornSequenceZero(e, state, written);
        }
      } else {
        assert Decode(full).state == state;
      }
    }
  }

  /** With the sequence complete there is only one checksum word that selects the record. */
  lemma TornInsideCrc(full: Record, written: nat)
    requires 28 < written < OTA_ENTRY_SIZE
    requires Decode(full).crc == OtaCrc(Decode(full).sequence)
    ensures Decode(Torn(full, written)).IsSelectable() ==> Torn(full, written) == full
  {
    hide OtaCrc;
    var r := Torn(full, written);
    assert r[0..4] == full[0..4];
    if Decode(r).crc == OtaCrc(Decode(r).sequence) {
      Le32Injective(r[28..32], full[28..32]);
      assert r[..28] == full[..28];
      assert r == r[..28] + r[28..32];
      assert full == full[..28] + full[28..32];
    }
  }

  /** Without a single checksum byte the checksum reads as all ones, which only sequence zero has. */
  lemma TornBeforeCrc(full: Record, written: nat)
    requires written <= 28 && Decode(full).sequence != 0
    ensures !Decode(Torn(full, written)).IsSelectable()
  {
    hide OtaCrc;
    var r := Torn(full, written);
    assert r[28..32] == [0xff, 0xff, 0xff, 0xff];
    OtaCrcErased(Decode(r).sequence);
    if written < 4 {
      assert r[0..4][3] == 0xff;
    } else {
      assert r[0..4] == full[0..4];
    }
  }

  lemma ErasedNotSelectable()
    ensures !Decode(ERASED).IsSelectable()
  {
    assert ERASED[0..4] == [0xff, 0xff, 0xff, 0xff];
  }
}
