/**
 * The flash the update protocol drives: two image slots, two boot records and the offset that the
 * memory map says is executing.
 *
 * Everything the device cannot control is an `Answer` on a tape, one per call: the clock, whether
 * the call reports success, and what it really left in flash. The two are independent, so a call
 * may fail after doing all of its work, succeed after doing none of it, or leave anything at all in
 * the range it was given. Reads that succeed are faithful. A power cut during a call is that call
 * leaving a partial result, followed by a reset.
 */
module FlashBackend {
  import opened Words
  import opened OtaMetadata
  import opened Crc

  const OTA_SLOT_SIZE: nat := 0x1e_0000
  const FLASH_SECTOR_SIZE: nat := 0x1000

  type Slot = s: Bytes | |s| == OTA_SLOT_SIZE witness Fill(OTA_SLOT_SIZE, 0xff)
  const BLANK_SLOT: Slot := Fill(OTA_SLOT_SIZE, 0xff)
  type Slots = s: seq<Slot> | |s| == 2 witness [BLANK_SLOT, BLANK_SLOT]

  datatype Flash = Flash(slots: Slots, records: Records, running: u32)

  datatype Answer = Answer(
    now: u64,            // what the clock reads
    ok: bool,            // what the call reports
    left: Option<Bytes>, // what a slot call leaves in its range, when not what was asked for
    erased: bool,        // whether a record's sector was erased
    written: nat         // how many record bytes then reached flash
  )

  type Tape = nat -> Answer

  /** What was asked of the hardware, in order. */
  datatype Event =
    | Received             // a new vendor request
    | Clock(now: u64)      // read on behalf of the open session
    | StartClock(now: u64) // read by a BEGIN that may open a session
    | Approved             // the user pressed the button
    | Opened(id: u32)
    | Progress(id: u32)
    | EraseCall(slot: byte, offset: nat, length: nat)
    | WriteCall(slot: byte, offset: nat, length: nat)
    | ActivateCall(slot: byte, sequence: u32, entry: byte)
  {
    predicate Mutation() {
      EraseCall? || WriteCall? || ActivateCall?
    }
  }

  /** The hash and the signature check are arbitrary functions. */
  datatype Crypto = Crypto(sha: Bytes -> Bytes, rsa: (Bytes, Bytes, Bytes) -> bool)

  datatype Backend = Backend(tape: Tape, pos: nat, flash: Flash, log: seq<Event>)
  {
    function Answered(): Answer { tape(pos) }

    function Next(): Backend { this.(pos := pos + 1) }

    function Logged(e: Event): Backend { this.(log := log + [e]) }

    function Kept(f: Flash): Backend { this.(flash := f) }
  }

  predicate InSlot(slot: byte, offset: nat, length: nat) {
    slot < 2 && offset + length <= OTA_SLOT_SIZE
  }

  /** `data` in place of the bytes at `offset`. */
  function Splice(s: Slot, offset: nat, data: Bytes): (r: Slot)
    requires offset + |data| <= OTA_SLOT_SIZE
    ensures r[offset..offset + |data|] == data
    ensures r[..offset] == s[..offset]
    ensures r[offset + |data|..] == s[offset + |data|..]
  {
    s[..offset] + data + s[offset + |data|..]
  }

  function Left(a: Answer, asked: Bytes): (r: Bytes)
    ensures |r| == |asked|
  {
    if a.left.Some? && |a.left.value| == |asked| then a.left.value else asked
  }

  function SetSlot(f: Flash, slot: byte, offset: nat, data: Bytes): Flash
    requires InSlot(slot, offset, |data|)
  {
    f.(slots := f.slots[slot := Splice(f.slots[slot], offset, data)])
  }

  // One function per backend call.

  function ReadClock(b: Backend): (u64, Backend) {
    var now := b.Answered().now;
    (now, b.Next().Logged(Clock(now)))
  }

  function ReadStartClock(b: Backend): (u64, Backend) {
    var now := b.Answered().now;
    (now, b.Next().Logged(StartClock(now)))
  }

  function ReadSlot(b: Backend, slot: byte, offset: nat, length: nat): (r: (Option<Bytes>, Backend))
    ensures r.0.Some? ==> InSlot(slot, offset, length) && r.0.value == b.flash.slots[slot][offset..offset + length]
  {
    if !InSlot(slot, offset, length) || !b.Answered().ok then (None, b.Next())
    else (Some(b.flash.slots[slot][offset..offset + length]), b.Next())
  }

  function EraseSlot(b: Backend, slot: byte, offset: nat, length: nat): (bool, Backend) {
    var c := b.Next().Logged(EraseCall(slot, offset, length));
    if offset % FLASH_SECTOR_SIZE != 0 || length % FLASH_SECTOR_SIZE != 0 || length == 0 || !InSlot(slot, offset, length)
    then (false, c)
    else (b.Answered().ok, c.Kept(SetSlot(b.flash, slot, offset, Left(b.Answered(), Fill(length, 0xff)))))
  }

  function WriteSlot(b: Backend, slot: byte, offset: nat, data: Bytes): (bool, Backend) {
    var c := b.Next().Logged(WriteCall(slot, offset, |data|));
    if |data| == 0 || offset % 32 != 0 || |data| % 32 != 0 || !InSlot(slot, offset, |data|)
    then (false, c)
    else (b.Answered().ok, c.Kept(SetSlot(b.flash, slot, offset, Left(b.Answered(), data))))
  }

  function VerifyRsaPss(b: Backend, c: Crypto, key: Bytes, signature: Bytes, digest: Bytes): (Option<bool>, Backend) {
    (if b.Answered().ok then Some(c.rsa(key, signature, digest)) else None, b.Next())
  }

  function ReadRecord(b: Backend, index: nat): (Option<Record>, Backend)
    requires index < 2
  {
    (if b.Answered().ok then Some(b.flash.records[index]) else None, b.Next())
  }

  function ReadEntries(b: Backend): (Option<Entries>, Backend) {
    var (r0, b0) := ReadRecord(b, 0);
    if r0.None? then (None, b0) else
    var (r1, b1) := ReadRecord(b0, 1);
    if r1.None? then (None, b1) else
    (Some([Decode(r0.value), Decode(r1.value)]), b1)
  }

  function ReadLayout(b: Backend): (Option<UpdateLayout>, Backend) {
    var (e, b1) := ReadEntries(b);
    if e.None? then (None, b1) else (UpdateLayoutFromEntries(e.value, b.flash.running), b1)
  }

  /** What an attempt to replace a record leaves behind. */
  function Attempted(previous: Record, replacement: Record, a: Answer): Record {
    if a.erased then Torn(replacement, a.written) else previous
  }

  function ReplaceEntry(b: Backend, index: nat, replacement: Record): (bool, Backend)
    requires index < 2
  {
    var a := b.Answered();
    var records := b.flash.records[index := Attempted(b.flash.records[index], replacement, a)];
    (a.ok, b.Next().Kept(b.flash.(records := records)))
  }

  /** Replace a record and insist on reading it back. */
  function ReplaceChecked(b: Backend, index: nat, replacement: Record): (bool, Backend)
    requires index < 2
  {
    var (ok, b1) := ReplaceEntry(b, index, replacement);
    if !ok then (false, b1) else
    var (readback, b2) := ReadRecord(b1, index);
    (readback == Some(replacement), b2)
  }

  function NewRecord(sequence: u32): Record {
    OtaEntry(sequence, STATE_NEW, OtaCrc(sequence)).EncodeWithState(STATE_NEW)
  }

  function ActivateUpdate(b: Backend, slot: byte, sequence: u32, entry: byte): (bool, Backend) {
    var (layout, b1) := ReadLayout(b.Logged(ActivateCall(slot, sequence, entry)));
    if layout.None? then (false, b1)
    else if !ActivationIsValid(layout.value, slot, sequence, entry) then (false, b1)
    else ReplaceChecked(b1, entry, NewRecord(sequence))
  }

  /** Turn the running image's PENDING record into a VALID one; `Some(false)` when there is nothing to do. */
  function ConfirmRunningImage(b: Backend, version: Bytes, secureVersion: u32): (Option<bool>, Backend) {
    var (e, b1) := ReadEntries(b);
    if e.None? then (None, b1) else
    var active := ActiveEntry(e.value);
    if active.None? then (Some(false), b1) else
    var entry := e.value[active.value];
    if entry.state != STATE_PENDING_VERIFY || SlotOf(entry.sequence).None? then (Some(false), b1) else
    var (descriptor, b2) := ReadSlot(b1, SlotOf(entry.sequence).value, APP_DESCRIPTOR_OFFSET, APP_DESCRIPTOR_SIZE);
    if descriptor.None? then (None, b2)
    else if !ConfirmationMatchesRunningImage(entry, b.flash.running, descriptor.value, version, secureVersion)
    then (Some(false), b2)
    else
      var (ok, b3) := ReplaceChecked(b2, active.value, entry.EncodeWithState(STATE_VALID));
      (if ok then Some(true) else None, b3)
  }

  // What the calls require, and what they leave.

  /** In this slot nothing outside the range differs, and the range holds what the answer left or what was asked. */
  predicate Replaced(f: Flash, g: Flash, slot: byte, offset: nat, asked: Bytes, a: Answer) {
    && slot < 2 && offset + |asked| <= 0x1e_0000
    && g.records == f.records && g.running == f.running && g.slots[1 - slot] == f.slots[1 - slot]
    && g.slots[slot][..offset] == f.slots[slot][..offset]
    && g.slots[slot][offset + |asked|..] == f.slots[slot][offset + |asked|..]
    && g.slots[slot][offset..offset + |asked|] ==
       if a.left.Some? && |a.left.value| == |asked| then a.left.value else asked
  }

  /**
   * An erase or a write, for every argument: a range that is unaligned, empty or outside the slot is refused and
   * nothing is touched, whatever the hardware would say; in any other the hardware has its way, inside the range alone.
   */
  lemma EraseSlotExactly(b: Backend, slot: byte, offset: nat, length: nat)
    ensures var (ok, b1) := EraseSlot(b, slot, offset, length);
            if offset % 0x1000 == 0 && length % 0x1000 == 0 && length > 0 && slot < 2 && offset + length <= 0x1e_0000
            then ok == b.tape(b.pos).ok && Replaced(b.flash, b1.flash, slot, offset, Fill(length, 0xff), b.tape(b.pos))
            else !ok && b1.flash == b.flash
  {
    hide Splice;
  }

  lemma WriteSlotExactly(b: Backend, slot: byte, offset: nat, data: Bytes)
    ensures var (ok, b1) := WriteSlot(b, slot, offset, data);
            if offset % 32 == 0 && |data| % 32 == 0 && |data| > 0 && slot < 2 && offset + |data| <= 0x1e_0000
            then ok == b.tape(b.pos).ok && Replaced(b.flash, b1.flash, slot, offset, data, b.tape(b.pos))
            else !ok && b1.flash == b.flash
  {
    hide Splice;
  }

  lemma ReadSlotExactly(b: Backend, slot: byte, offset: nat, length: nat)
    ensures var (read, b1) := ReadSlot(b, slot, offset, length);
            && b1.flash == b.flash
            && (read.Some? <==> b.tape(b.pos).ok && slot < 2 && offset + length <= 0x1e_0000)
            && (read.Some? ==> read.value == b.flash.slots[slot][offset..offset + length])
  {
  }

  /** From here on `count` calls succeed and do all their work. */
  predicate Works(t: Tape, from: nat, count: nat) {
    forall i :: from <= i < from + count ==> t(i).ok && t(i).erased && t(i).written >= OTA_ENTRY_SIZE
  }

  lemma WorksInParts(t: Tape, from: nat, first: nat, rest: nat)
    requires Works(t, from, first + rest)
    ensures Works(t, from, first) && Works(t, from + first, rest)
  {
  }

  lemma EntriesAreRead(b: Backend)
    ensures var (e, b1) := ReadEntries(b);
            && b1.flash == b.flash && b1.tape == b.tape
            && (e.Some? ==> e.value == DecodeBoth(b.flash.records) && b1.pos == b.pos + 2)
            && (Works(b.tape, b.pos, 2) ==> e.Some?)
  {
    hide Decode;
    assert b.Answered() == b.tape(b.pos) && b.Next().Answered() == b.tape(b.pos + 1);
  }

  /** Success means that the record is in place; calls that work succeed. */
  lemma ReplacedRecord(b: Backend, index: nat, replacement: Record)
    requires index < 2
    ensures var (ok, b1) := ReplaceChecked(b, index, replacement);
            && (ok ==> b1.flash == b.flash.(records := b.flash.records[index := replacement]))
            && (Works(b.tape, b.pos, 2) ==> ok)
  {
    assert b.Answered() == b.tape(b.pos) && b.Next().Answered() == b.tape(b.pos + 1);
  }

  /** The descriptor in a slot carries exactly this version and this secure version. */
  predicate Announces(s: Slot, version: Bytes, secureVersion: u32) {
    && FromLe32(s[32..36]) == 0xabcd_5432 && FromLe32(s[36..40]) == secureVersion
    && 0 < |version| < 32 && s[48..48 + |version|] == version && s[48 + |version|] == 0
  }

  /** The followed record is PENDING for the slot that is executing, and that slot announces these versions. */
  predicate MayConfirm(f: Flash, version: Bytes, secureVersion: u32) {
    var active := ActiveEntry(DecodeBoth(f.records));
    && active.Some?
    && var r := f.records[active.value];
    var sequence := FromLe32(r[0..4]);
    && FromLe32(r[24..28]) == 1 && Executes(sequence, f.running)
    && Announces(f.slots[if sequence % 2 == 1 then 0 else 1], version, secureVersion)
  }

  /** The check on the descriptor that was read is one on the slot's bytes. */
  lemma DescriptorIsBytes(s: Slot, entry: OtaEntry, running: u32, version: Bytes, secureVersion: u32)
    ensures var descriptor := s[APP_DESCRIPTOR_OFFSET..APP_DESCRIPTOR_OFFSET + APP_DESCRIPTOR_SIZE];
            ConfirmationMatchesRunningImage(entry, running, descriptor, version, secureVersion) <==>
            entry.state == 1 && Executes(entry.sequence, running) && Announces(s, version, secureVersion)
  {
    hide FromLe32;
    var d := s[32..288];
    SliceOfSlice(s, 32, 288, 0, 4);
    SliceOfSlice(s, 32, 288, 4, 8);
    SliceOfSlice(s, 32, 288, 16, 48);
    if |version| < 32 {
      SliceOfSlice(s, 48, 80, 0, |version|);
      assert d[16..48][..|version|] == d[16..48][0..|version|];
    }
  }

  /**
   * A confirmation changes flash, or claims to have, only for the executing image on trial; when the calls work it
   * then succeeds, and otherwise it says that there is nothing to do.
   */
  lemma ConfirmExactly(b: Backend, version: Bytes, secureVersion: u32)
    ensures var (r, b1) := ConfirmRunningImage(b, version, secureVersion);
            && (b1.flash != b.flash || r == Some(true) ==> MayConfirm(b.flash, version, secureVersion))
            && (r == Some(true) ==>
                  var active := ActiveEntry(DecodeBoth(b.flash.records)).value;
                  b1.flash.records[active] == Decode(b.flash.records[active]).EncodeWithState(2))
            && (Works(b.tape, b.pos, 5) && MayConfirm(b.flash, version, secureVersion) ==> r == Some(true))
            && (Works(b.tape, b.pos, 3) && !MayConfirm(b.flash, version, secureVersion) ==> r == Some(false))
  {
    hide ConfirmationMatchesRunningImage, ActiveEntry, Decode, DecodeBoth, SlotOf, MayConfirm, ReplaceChecked, ReadEntries;
    hide Works, OtaCrc;
    var (e, b1) := ReadEntries(b);
    EntriesAreRead(b);
    if Works(b.tape, b.pos, 5) { WorksInParts(b.tape, b.pos, 3, 2); }
    if Works(b.tape, b.pos, 3) { ThirdWorks(b.tape, b.pos); }
    TrialIsBytes(b.flash, version, secureVersion);
    BothDecoded(b.flash.records);
    var active := ActiveEntry(DecodeBoth(b.flash.records));
    if e.Some? && active.Some? {
      ReplacedRecord(b1.Next(), active.value, e.value[active.value].EncodeWithState(STATE_VALID));
    }
  }

  lemma ThirdWorks(t: Tape, from: nat)
    requires Works(t, from, 3)
    ensures Works(t, from, 2) && t(from + 2).ok
  {
  }

  lemma BothDecoded(r: Records)
    ensures DecodeBoth(r)[0] == Decode(r[0]) && DecodeBoth(r)[1] == Decode(r[1])
  {
  }

  lemma TrialIsBytes(f: Flash, version: Bytes, secureVersion: u32)
    ensures var active := ActiveEntry(DecodeBoth(f.records));
            active.Some? && SlotOf(Decode(f.records[active.value]).sequence).Some? ==>
              SlotOf(Decode(f.records[active.value]).sequence).value < 2
    ensures var active := ActiveEntry(DecodeBoth(f.records));
            MayConfirm(f, version, secureVersion) <==>
              && active.Some?
              && var entry := Decode(f.records[active.value]);
              && entry.state == STATE_PENDING_VERIFY
              && SlotOf(entry.sequence).Some?
              && var slot := f.slots[SlotOf(entry.sequence).value];
              ConfirmationMatchesRunningImage(entry, f.running, slot[32..288], version, secureVersion)
  {
    hide ConfirmationMatchesRunningImage, ActiveEntry, Announces, FromLe32, OtaCrc;
    var active := ActiveEntry(DecodeBoth(f.records));
    if active.Some? {
      var entry := Decode(f.records[active.value]);
      if SlotOf(entry.sequence).Some? {
        DescriptorIsBytes(f.slots[SlotOf(entry.sequence).value], entry, f.running, version, secureVersion);
      }
    }
  }

  /** This record is not the one followed, which is VALID and executing; the sequence is a later one of the other slot. */
  predicate MayActivate(f: Flash, slot: byte, sequence: u32, entry: byte) {
    && slot < 2 && entry < 2 && ActiveEntry(DecodeBoth(f.records)) == Some((1 - entry) as nat)
    && var r := f.records[1 - entry];
    && FromLe32(r[24..28]) == 2 && Executes(FromLe32(r[0..4]), f.running)
    && FromLe32(r[0..4]) < sequence && sequence % 2 != FromLe32(r[0..4]) % 2 && slot == (sequence + 1) % 2
  }

  lemma NewRecordBytes(sequence: u32)
    ensures NewRecord(sequence)[0..4] == ToLe32(sequence) && NewRecord(sequence)[24..28] == [0, 0, 0, 0]
  {
    hide OtaCrc;
    RecordBytes(NewRecord(sequence), OtaEntry(sequence, STATE_NEW, OtaCrc(sequence)), STATE_NEW);
  }

  /** Whatever is asked of it, an activation changes flash, or claims to have, only for such a record. */
  lemma ActivateExactly(b: Backend, slot: byte, sequence: u32, entry: byte)
    ensures var (ok, b1) := ActivateUpdate(b, slot, sequence, entry);
            && (b1.flash != b.flash || ok ==> MayActivate(b.flash, slot, sequence, entry))
            && (ok ==> b1.flash == b.flash.(records := b.flash.records[entry := NewRecord(sequence)])
                       && b1.flash.records[entry][0..4] == ToLe32(sequence)
                       && b1.flash.records[entry][24..28] == [0, 0, 0, 0])
            && (Works(b.tape, b.pos, 4) && MayActivate(b.flash, slot, sequence, entry) ==> ok)
  {
    hide FromLe32, NewRecord, ReplaceChecked, ReadEntries, UpdateLayoutFromEntries, DecodeBoth, MayActivate;
    hide ActivationIsValid;
    OfferIsMayActivate(b.flash, slot, sequence, entry);
    NewRecordBytes(sequence);
    var c := b.Logged(ActivateCall(slot, sequence, entry));
    EntriesAreRead(c);
    var (_, b1) := ReadEntries(c);
    assert Works(b.tape, b.pos, 4) ==> Works(b.tape, b.pos, 2) && Works(b.tape, b.pos + 2, 2);
    if entry < 2 { ReplacedRecord(b1, entry, NewRecord(sequence)); }
  }

  lemma OfferIsMayActivate(f: Flash, slot: byte, sequence: u32, entry: byte)
    ensures MayActivate(f, slot, sequence, entry) ==> entry < 2
    ensures var l := UpdateLayoutFromEntries(DecodeBoth(f.records), f.running);
            l.Some? && ActivationIsValid(l.value, slot, sequence, entry) <==> MayActivate(f, slot, sequence, entry)
  {
    hide ActiveEntry, FromLe32, OtaCrc, UpdateLayoutFromEntries;
    LayoutExactly(DecodeBoth(f.records), f.running);
    if entry < 2 {
      var followed := FromLe32(f.records[1 - entry][0..4]);
      assert MayActivate(f, slot, sequence, entry) ==>
          UpdateLayoutFromEntries(DecodeBoth(f.records), f.running) ==
          Some(UpdateLayout((followed + 1) % 2, followed, entry));
    }
  }

  /** The device: the same calls as methods that change flash in place. */
  class FlashDevice {
    const tape: Tape
    var pos: nat
    var slots: Slots
    var records: Records
    var running: u32
    ghost var log: seq<Event>

    ghost function Model(): Backend
      reads this
    {
      Backend(tape, pos, Flash(slots, records, running), log)
    }

    constructor (tape: Tape, slots: Slots, records: Records, running: u32)
      ensures Model() == Backend(tape, 0, Flash(slots, records, running), [])
    {
      this.tape, this.pos, this.log := tape, 0, [];
      this.slots, this.records, this.running := slots, records, running;
    }

    method NowMs(ghost starting: bool := false) returns (now: u64)
      modifies this`pos, this`log
      ensures (now, Model()) == if starting then ReadStartClock(old(Model())) else ReadClock(old(Model()))
    {
      now := tape(pos).now;
      pos := pos + 1;
      log := log + [if starting then StartClock(now) else Clock(now)];
    }

    ghost method Note(e: Event)
      modifies this`log
      ensures Model() == old(Model()).Logged(e)
    {
      log := log + [e];
    }

    method Read(slot: byte, offset: nat, length: nat) returns (data: Option<Bytes>)
      modifies this`pos
      ensures (data, Model()) == ReadSlot(old(Model()), slot, offset, length)
    {
      var ok := tape(pos).ok;
      pos := pos + 1;
      if slot >= 2 || offset + length > OTA_SLOT_SIZE || !ok { return None; }
      data := Some(slots[slot][offset..offset + length]);
    }

    method Erase(slot: byte, offset: nat, length: nat) returns (ok: bool)
      modifies this
      ensures (ok, Model()) == EraseSlot(old(Model()), slot, offset, length)
    {
      var a := tape(pos);
      pos := pos + 1;
      log := log + [EraseCall(slot, offset, length)];
      if offset % FLASH_SECTOR_SIZE != 0 || length % FLASH_SECTOR_SIZE != 0 || length == 0
         || slot >= 2 || offset + length > OTA_SLOT_SIZE
      {
        return false;
      }
      slots := slots[slot := Splice(slots[slot], offset, Left(a, Fill(length, 0xff)))];
      ok := a.ok;
    }

    method Write(slot: byte, offset: nat, data: Bytes) returns (ok: bool)
      modifies this
      ensures (ok, Model()) == WriteSlot(old(Model()), slot, offset, data)
    {
      var a := tape(pos);
      pos := pos + 1;
      log := log + [WriteCall(slot, offset, |data|)];
      if |data| == 0 || offset % 32 != 0 || |data| % 32 != 0 || slot >= 2 || offset + |data| > OTA_SLOT_SIZE {
        return false;
      }
      slots := slots[slot := Splice(slots[slot], offset, Left(a, data))];
      ok := a.ok;
    }

    method VerifyRsa(c: Crypto, key: Bytes, signature: Bytes, digest: Bytes) returns (valid: Option<bool>)
      modifies this`pos
      ensures (valid, Model()) == VerifyRsaPss(old(Model()), c, key, signature, digest)
    {
      valid := if tape(pos).ok then Some(c.rsa(key, signature, digest)) else None;
      pos := pos + 1;
    }

    method ReadBack(index: nat) returns (record: Option<Record>)
      requires index < 2
      modifies this`pos
      ensures (record, Model()) == ReadRecord(old(Model()), index)
    {
      record := if tape(pos).ok then Some(records[index]) else None;
      pos := pos + 1;
    }

    method Entries() returns (e: Option<Entries>)
      modifies this`pos
      ensures (e, Model()) == ReadEntries(old(Model()))
    {
      var r0 := ReadBack(0);
      if r0.None? { return None; }
      var r1 := ReadBack(1);
      if r1.None? { return None; }
      e := Some([Decode(r0.value), Decode(r1.value)]);
    }

    method Layout() returns (layout: Option<UpdateLayout>)
      modifies this`pos
      ensures (layout, Model()) == ReadLayout(old(Model()))
    {
      var e := Entries();
      if e.None? { return None; }
      layout := UpdateLayoutFromEntries(e.value, running);
    }

    method Replace(index: nat, replacement: Record) returns (ok: bool)
      requires index < 2
      modifies this`pos, this`records
      ensures (ok, Model()) == ReplaceEntry(old(Model()), index, replacement)
    {
      var a := tape(pos);
      pos := pos + 1;
      if a.erased {
        records := records[index := ERASED];
        records := records[index := Torn(replacement, a.written)];
      }
      ok := a.ok;
      assert records == old(records)[index := Attempted(old(records[index]), replacement, a)];
    }

    method ReplaceAndCheck(index: nat, replacement: Record) returns (ok: bool)
      requires index < 2
      modifies this`pos, this`records
      ensures (ok, Model()) == ReplaceChecked(old(Model()), index, replacement)
    {
      ok := Replace(index, replacement);
      if !ok { return false; }
      var readback := ReadBack(index);
      ok := readback == Some(replacement);
    }

    method Activate(slot: byte, sequence: u32, entry: byte) returns (ok: bool)
      modifies this
      ensures (ok, Model()) == ActivateUpdate(old(Model()), slot, sequence, entry)
      ensures ok || Model().flash != old(Model().flash) ==> MayActivate(old(Model().flash), slot, sequence, entry)
    {
      hide OtaCrc, MayActivate;
      ActivateExactly(Model(), slot, sequence, entry);
      Note(ActivateCall(slot, sequence, entry));
      var layout := Layout();
      if layout.None? { return false; }
      if !ActivationIsValid(layout.value, slot, sequence, entry) { return false; }
      ok := ReplaceAndCheck(entry, NewRecord(sequence));
    }

    method Confirm(version: Bytes, secureVersion: u32) returns (confirmed: Option<bool>)
      modifies this
      ensures (confirmed, Model()) == ConfirmRunningImage(old(Model()), version, secureVersion)
      ensures confirmed == Some(true) || Model().flash != old(Model().flash) ==>
                MayConfirm(old(Model().flash), version, secureVersion)
    {
      hide OtaCrc, MayConfirm;
      ConfirmExactly(Model(), version, secureVersion);
      var e := Entries();
      if e.None? { return None; }
      var active := ActiveEntry(e.value);
      if active.None? { return Some(false); }
      var entry := e.value[active.value];
      if entry.state != STATE_PENDING_VERIFY { return Some(false); }
      var slot := SlotOf(entry.sequence);
      if slot.None? { return Some(false); }
      var descriptor := Read(slot.value, APP_DESCRIPTOR_OFFSET, APP_DESCRIPTOR_SIZE);
      if descriptor.None? { return None; }
      if !ConfirmationMatchesRunningImage(entry, running, descriptor.value, version, secureVersion) {
        return Some(false);
      }
      var ok := ReplaceAndCheck(active.value, entry.EncodeWithState(STATE_VALID));
      confirmed := if ok then Some(true) else None;
    }
  }
}
