/** Parsing and authenticating a signed ESP32-S2 image. */
module SignedImage {
  import opened Words
  import opened Crc
  import opened FlashBackend

  const SIGNATURE_SECTOR_SIZE: nat := 0x1000
  const SIGNATURE_BLOCK_SIZE: nat := 1216
  const SIGNATURE_CRC_LENGTH: nat := 1196
  const MAX_VERSION_LENGTH: nat := 31
  const ESP_IMAGE_MAGIC: byte := 0xe9
  const ESP32S2_CHIP_ID: u16 := 2
  const ESP_APP_DESCRIPTOR_MAGIC: u32 := 0xabcd_5432
  const SECURE_BOOT_V2_SIGNATURE_MAGIC: byte := 0xe7
  const SECURE_BOOT_V2_RSA_VERSION: byte := 2
  const APP_DESCRIPTOR_PREFIX_SIZE: nat := 80
  const MAX_SECURE_VERSION: nat := 16

  /** Where the last segment may end: its trailer and one signature sector must still fit. */
  const SEGMENT_LIMIT: nat := OTA_SLOT_SIZE - SIGNATURE_SECTOR_SIZE - 48

  datatype ImageMetadata = ImageMetadata(secureVersion: u32, version: Bytes)
  datatype ParsedSignature = ParsedSignature(imageDigest: Bytes, publicKey: Bytes, signature: Bytes)
  datatype InstalledImageError = BadSlot | BadRead | BadHeader | BadExtent | BadSignature
  datatype VerifiedInstalledImage =
    VerifiedInstalledImage(secureVersion: u32, signedImageBytes: nat, signedContentDigest: Bytes)

  /** The bytes before the first NUL. */
  function UntilZero(field: Bytes): (r: Option<Bytes>)
    ensures r.Some? ==> |r.value| < |field| && field[..|r.value|] == r.value && field[|r.value|] == 0 && 0 !in r.value
    ensures r.None? ==> 0 !in field
  {
    if field == [] then None
    else if field[0] == 0 then Some([])
    else
      var rest := UntilZero(field[1..]);
      if rest.None? then None else Some([field[0]] + rest.value)
  }

  function ParseImageMetadata(prefix: Bytes): Option<ImageMetadata>
    requires |prefix| == APP_DESCRIPTOR_PREFIX_SIZE
  {
    if prefix[0] != ESP_IMAGE_MAGIC || !(1 <= prefix[1] <= 16)
       || Le16(prefix[12..14]) != ESP32S2_CHIP_ID
       || FromLe32(prefix[32..36]) != ESP_APP_DESCRIPTOR_MAGIC
    then None
    else
      var version := UntilZero(prefix[48..80]);
      if version.None? || |version.value| == 0 || |version.value| > MAX_VERSION_LENGTH then None
      else Some(ImageMetadata(FromLe32(prefix[36..40]), version.value))
  }

  /** What the first 80 bytes of an image say, byte by byte. */
  predicate Describes(image: Bytes, m: ImageMetadata)
    requires |image| >= APP_DESCRIPTOR_PREFIX_SIZE
  {
    && image[0] == 0xe9 && 1 <= image[1] <= 16 && image[12] == 2 && image[13] == 0
    && FromLe32(image[32..36]) == 0xabcd_5432 && FromLe32(image[36..40]) == m.secureVersion
    && 0 < |m.version| < 32 && 0 !in m.version
    && image[48..48 + |m.version|] == m.version && image[48 + |m.version|] == 0
  }

  /** The parser finds exactly what the bytes say, and nothing where they say nothing. */
  lemma MetadataIsBytes(image: Bytes)
    requires |image| >= APP_DESCRIPTOR_PREFIX_SIZE
    ensures forall m :: ParseImageMetadata(image[..APP_DESCRIPTOR_PREFIX_SIZE]) == Some(m) <==> Describes(image, m)
  {
    var p := image[..APP_DESCRIPTOR_PREFIX_SIZE];
    var field := image[48..80];
    assert p[12..14] == image[12..14] && p[32..36] == image[32..36] && p[36..40] == image[36..40] && p[48..80] == field;
    forall m ensures ParseImageMetadata(p) == Some(m) <==> Describes(image, m) {
      if Describes(image, m) {
        assert field[..|m.version|] == m.version;
        FirstZero(field, m.version);
      }
    }
  }

  /** A string that holds no NUL, and that one follows, is what comes before the first NUL. */
  lemma {:induction false} FirstZero(field: Bytes, text: Bytes)
    requires |text| < |field| && field[..|text|] == text && field[|text|] == 0 && 0 !in text
    ensures UntilZero(field) == Some(text)
    decreases |text|
  {
    if text != [] {
      assert field[0] == text[0] && field[1..][..|text| - 1] == text[1..];
      FirstZero(field[1..], text[1..]);
    }
  }

  function ParseSignatureBlock(block: Bytes, trustedKeyDigest: Bytes, c: Crypto): Option<ParsedSignature>
    requires |block| == SIGNATURE_BLOCK_SIZE
  {
    if block[0] != SECURE_BOOT_V2_SIGNATURE_MAGIC
       || block[1] != SECURE_BOOT_V2_RSA_VERSION
       || FromLe32(block[1196..1200]) != EspCrc32(0, block[..SIGNATURE_CRC_LENGTH])
       || c.sha(block[36..812]) != trustedKeyDigest
    then None
    else Some(ParsedSignature(block[4..36], block[36..812], block[812..1196]))
  }

  /** A block is accepted exactly when these bytes are right, and its fields are these bytes. */
  lemma BlockIsBytes(image: Bytes, o: nat, trusted: Bytes, c: Crypto)
    requires o + SIGNATURE_BLOCK_SIZE <= |image|
    ensures var p := ParseSignatureBlock(image[o..o + SIGNATURE_BLOCK_SIZE], trusted, c);
            && (p.Some? <==>
                  && image[o] == 0xe7 && image[o + 1] == 2
                  && FromLe32(image[o + 1196..o + 1200]) == EspCrc32(0, image[o..o + 1196])
                  && c.sha(image[o + 36..o + 812]) == trusted)
            && (p.Some? ==>
                  p.value == ParsedSignature(image[o + 4..o + 36], image[o + 36..o + 812], image[o + 812..o + 1196]))
  {
    hide EspCrc32, FromLe32;
    var b, end := image[o..o + SIGNATURE_BLOCK_SIZE], o + SIGNATURE_BLOCK_SIZE;
    SliceOfSlice(image, o, end, 1196, 1200);
    SliceOfSlice(image, o, end, 0, 1196);
    SliceOfSlice(image, o, end, 4, 36);
    SliceOfSlice(image, o, end, 36, 812);
    SliceOfSlice(image, o, end, 812, 1196);
    assert b[..1196] == b[0..1196];
  }

  /**
   * A block that was accepted is rejected after any change to at most four consecutive bytes that
   * its checksum covers, as long as the stored checksum stays.
   */
  lemma BlockBurstRejected(block: Bytes, changed: Bytes, at: nat, x: Bytes, trusted: Bytes, c: Crypto)
    requires |block| == |changed| == SIGNATURE_BLOCK_SIZE
    requires |x| <= 4 && at + |x| <= SIGNATURE_CRC_LENGTH
    requires ParseSignatureBlock(block, trusted, c).Some?
    requires changed == block[..at] + x + block[at + |x|..] && changed != block
    ensures ParseSignatureBlock(changed, trusted, c).None?
  {
    hide EspCrc32;
    var y := block[at..at + |x|];
    var after := block[at + |x|..SIGNATURE_CRC_LENGTH];
    assert block == block[..at] + y + block[at + |x|..];
    assert block[..SIGNATURE_CRC_LENGTH] == block[..at] + y + after;
    assert changed[..SIGNATURE_CRC_LENGTH] == block[..at] + x + after;
    assert changed[1196..1200] == block[1196..1200];
    ByteBurstDetected(0, block[..at], x, y, after);
  }

  // The extent of an installed image.

  function SegmentLength(s: Slot, position: nat): u32
    requires position + 8 <= OTA_SLOT_SIZE
  {
    FromLe32(s[position + 4..position + 8])
  }

  /** Where the segments end. A sum that overflows 32 bits is beyond the limit as well. */
  function SegmentsEnd(s: Slot, segment: nat, count: nat, position: nat): (r: Result<nat, InstalledImageError>)
    requires segment <= count && position <= SEGMENT_LIMIT
    ensures r.Ok? ==> position <= r.value <= SEGMENT_LIMIT
    decreases count - segment
  {
    if segment == count then Ok(position) else
    var length := SegmentLength(s, position);
    if segment == 0 && length < 48 then Err(BadHeader)
    else if position + 8 + length > SEGMENT_LIMIT then Err(BadExtent)
    else SegmentsEnd(s, segment + 1, count, position + 8 + length)
  }

  /** Where each segment header starts, the first at 24, and at the end where the segments end. */
  predicate IsWalk(s: Slot, p: seq<nat>) {
    && p != [] && p[0] == 24 && (forall i :: 0 <= i < |p| ==> p[i] <= 0x1d_efd0)
    && forall i :: 0 <= i < |p| - 1 ==> p[i + 1] == p[i] + 8 + FromLe32(s[p[i] + 4..p[i] + 8])
  }

  /** `q` goes on where `p` stops, up to `count` steps. */
  predicate Extends(s: Slot, p: seq<nat>, q: seq<nat>, count: nat) {
    p <= q && IsWalk(s, q) && |q| == count + 1
  }

  lemma WalkStep(s: Slot, p: seq<nat>, q: seq<nat>, count: nat)
    requires IsWalk(s, p) && |p| <= count && Extends(s, p, q, count)
    ensures var at := p[|p| - 1];
            var next := at + 8 + SegmentLength(s, at);
            next <= SEGMENT_LIMIT && IsWalk(s, p + [next]) && Extends(s, p + [next], q, count)
  {
    hide FromLe32;
    var n := |p|;
    assert q[n - 1] == p[n - 1];
    assert q[n - 1 + 1] == q[n - 1] + 8 + FromLe32(s[q[n - 1] + 4..q[n - 1] + 8]);
    assert q[..n] == p && q[..n + 1] == p + [q[n]];
  }

  lemma WalkEnds(s: Slot, p: seq<nat>)
    requires IsWalk(s, p)
    ensures p != [] && p[0] == 24 && p[|p| - 1] <= SEGMENT_LIMIT
  {
  }

  lemma WalkGrows(s: Slot, p: seq<nat>)
    requires IsWalk(s, p)
    ensures var at := p[|p| - 1];
            var next := at + 8 + SegmentLength(s, at);
            next <= SEGMENT_LIMIT ==> IsWalk(s, p + [next])
  {
    hide FromLe32;
  }

  /** A walk that has taken some steps goes on as `SegmentsEnd` does. */
  lemma {:induction false} WalkOn(s: Slot, count: nat, p: seq<nat>)
    requires IsWalk(s, p) && |p| <= count + 1 && (|p| == 1 && count > 0 ==> SegmentLength(s, 24) >= 48)
    ensures var r := SegmentsEnd(s, |p| - 1, count, p[|p| - 1]);
            && (r.Ok? ==> exists q :: Extends(s, p, q, count))
            && (r.Err? ==> r.error == BadExtent)
            && forall q :: Extends(s, p, q, count) ==> r == Ok(q[count])
    decreases count - |p|
  {
    hide IsWalk, SegmentLength;
    WalkEnds(s, p);
    if |p| == count + 1 {
      assert Extends(s, p, p, count);
    } else {
      var at := p[|p| - 1];
      var next := at + 8 + SegmentLength(s, at);
      WalkGrows(s, p);
      forall q | Extends(s, p, q, count) ensures next <= SEGMENT_LIMIT && Extends(s, p + [next], q, count) {
        WalkStep(s, p, q, count);
      }
      if next <= SEGMENT_LIMIT {
        WalkOn(s, count, p + [next]);
        forall q | Extends(s, p + [next], q, count) ensures Extends(s, p, q, count) {
          assert p <= p + [next];
        }
      }
    }
  }

  /** `position | 15` and then 33 more: the checksum closes a 16-byte row and a SHA-256 follows it. */
  function TrailerEnd(position: nat): nat {
    position - position % 16 + 15 + 33
  }

  function RoundUpToSector(value: nat): nat {
    var v := value + (SIGNATURE_SECTOR_SIZE - 1);
    v - v % SIGNATURE_SECTOR_SIZE
  }

  function SignatureOffset(position: nat): nat {
    RoundUpToSector(TrailerEnd(position))
  }

  lemma RoundedUp(value: nat)
    ensures RoundUpToSector(value) % 0x1000 == 0 && value <= RoundUpToSector(value) < value + 0x1000
  {
    var v := value + 0xfff;
    assert v == 0x1000 * (v / 0x1000) + v % 0x1000;
  }

  /** No multiple of a sector lies between a value and its rounding. */
  lemma NothingBetween(value: nat, m: nat)
    requires m % 0x1000 == 0 && value <= m
    ensures RoundUpToSector(value) <= m
  {
    hide RoundUpToSector;
    RoundedUp(value);
    var q, k := RoundUpToSector(value) / 0x1000, m / 0x1000;
    assert RoundUpToSector(value) == 0x1000 * q && m == 0x1000 * k;
  }

  /** The signature starts at the first sector boundary at or after the trailer. */
  lemma SignatureOffsetIsLeast(position: nat)
    ensures SignatureOffset(position) % SIGNATURE_SECTOR_SIZE == 0
    ensures TrailerEnd(position) <= SignatureOffset(position)
    ensures forall m: nat :: m % SIGNATURE_SECTOR_SIZE == 0 && TrailerEnd(position) <= m ==> SignatureOffset(position) <= m
    ensures position < TrailerEnd(position) - 32 <= position + 16 && (TrailerEnd(position) - 32) % 16 == 0
  {
    hide RoundUpToSector;
    TrailerIsAligned(position);
    var t := TrailerEnd(position);
    RoundedUp(t);
    forall m: nat | m % SIGNATURE_SECTOR_SIZE == 0 && t <= m ensures SignatureOffset(position) <= m {
      NothingBetween(t, m);
    }
  }

  lemma TrailerIsAligned(position: nat)
    ensures position < TrailerEnd(position) - 32 <= position + 16 && (TrailerEnd(position) - 32) % 16 == 0
  {
    assert TrailerEnd(position) - 32 == 16 * (position / 16 + 1);
  }

  /** The last check on the signature offset never fires: the segment limit has already excluded it. */
  lemma ExtentAlwaysFits(position: nat)
    requires position <= SEGMENT_LIMIT
    ensures SIGNATURE_SECTOR_SIZE <= SignatureOffset(position) <= OTA_SLOT_SIZE - SIGNATURE_SECTOR_SIZE
    ensures SignatureOffset(position) + SIGNATURE_BLOCK_SIZE <= OTA_SLOT_SIZE
  {
  }

  /**
   * The limit is the last 16-byte row that fits. A segment end inside that same row would fit too,
   * so the limit refuses fifteen positions more than it has to, and never one too few.
   */
  lemma SegmentLimitIsTheLastRow(position: nat)
    ensures SignatureOffset(position) <= OTA_SLOT_SIZE - SIGNATURE_SECTOR_SIZE <==> position <= SEGMENT_LIMIT + 15
    ensures position % 16 == 0 ==>
              (SignatureOffset(position) <= OTA_SLOT_SIZE - SIGNATURE_SECTOR_SIZE <==> position <= SEGMENT_LIMIT)
  {
    var limit := OTA_SLOT_SIZE - SIGNATURE_SECTOR_SIZE;
    SignatureOffsetIsLeast(position);
    assert TrailerEnd(position) <= limit <==> SignatureOffset(position) <= limit;
  }

  /** The bytes at `o` are a signature block, under the trusted key, of everything below them. */
  predicate SignedBelow(image: Bytes, o: nat, trusted: Bytes, c: Crypto)
    requires o + SIGNATURE_BLOCK_SIZE <= |image|
  {
    && image[o] == 0xe7 && image[o + 1] == 2
    && FromLe32(image[o + 1196..o + 1200]) == EspCrc32(0, image[o..o + 1196])
    && c.sha(image[o + 36..o + 812]) == trusted
    && image[o + 4..o + 36] == c.sha(image[..o])
    && c.rsa(image[o + 36..o + 812], image[o + 812..o + 1196], c.sha(image[..o]))
  }

  /** What both verifiers do with a block they read back. */
  predicate Accepted(block: Bytes, digest: Bytes, trusted: Bytes, c: Crypto)
    requires |block| == SIGNATURE_BLOCK_SIZE
  {
    var p := ParseSignatureBlock(block, trusted, c);
    p.Some? && p.value.imageDigest == digest && c.rsa(p.value.publicKey, p.value.signature, digest)
  }

  /** It comes to exactly the bytes of a signature. */
  lemma AcceptedIsSigned(image: Bytes, o: nat, trusted: Bytes, c: Crypto)
    requires o + SIGNATURE_BLOCK_SIZE <= |image|
    ensures Accepted(image[o..o + SIGNATURE_BLOCK_SIZE], c.sha(image[..o]), trusted, c) <==> SignedBelow(image, o, trusted, c)
  {
    hide EspCrc32, FromLe32, ParseSignatureBlock;
    BlockIsBytes(image, o, trusted, c);
  }

  /** What a fully readable slot authenticates as. */
  function InstalledImage(s: Slot, trusted: Bytes, c: Crypto): Result<VerifiedInstalledImage, InstalledImageError> {
    var metadata := ParseImageMetadata(s[..APP_DESCRIPTOR_PREFIX_SIZE]);
    if metadata.None? || s[23] != 1 || metadata.value.secureVersion > MAX_SECURE_VERSION then Err(BadHeader) else
    var end := SegmentsEnd(s, 0, s[1], 24);
    if end.Err? then Err(end.error) else
    var offset := SignatureOffset(end.value);
    ExtentAlwaysFits(end.value);
    if !SignedBelow(s, offset, trusted, c) then Err(BadSignature)
    else Ok(VerifiedInstalledImage(metadata.value.secureVersion, offset + SIGNATURE_SECTOR_SIZE, c.sha(s[..offset])))
  }

  /** A header that an installed image may have. */
  ghost predicate IsPlausible(s: Slot) {
    (exists m :: Describes(s, m) && m.secureVersion <= 16) && s[23] == 1 && FromLe32(s[28..32]) >= 48
  }

  /** The walk over all the segments that the header counts. */
  predicate WalksAll(s: Slot, p: seq<nat>) {
    IsWalk(s, p) && |p| - 1 == s[1]
  }

  /** Some walk over all the segments ends where a signature block of everything below it follows. */
  ghost predicate IsSigned(s: Slot, trusted: Bytes, c: Crypto) {
    exists p :: WalksAll(s, p) && SignedAfter(s, p[|p| - 1], trusted, c)
  }

  predicate SignedAfter(s: Slot, end: nat, trusted: Bytes, c: Crypto) {
    end <= SEGMENT_LIMIT && (ExtentAlwaysFits(end); SignedBelow(s, SignatureOffset(end), trusted, c))
  }

  /** The version, the extent and the digest are those of the slot's bytes, up to a signature sector that signs them. */
  predicate IsEvidence(s: Slot, v: VerifiedInstalledImage, trusted: Bytes, c: Crypto) {
    && v.secureVersion == FromLe32(s[36..40])
    && v.signedImageBytes % 0x1000 == 0 && 0x1000 <= v.signedImageBytes <= OTA_SLOT_SIZE
    && v.signedContentDigest == c.sha(s[..v.signedImageBytes - 0x1000])
    && SignedBelow(s, v.signedImageBytes - 0x1000, trusted, c)
  }

  lemma HeaderIsPlausible(s: Slot)
    ensures var m := ParseImageMetadata(s[..APP_DESCRIPTOR_PREFIX_SIZE]);
            && (m.Some? && s[23] == 1 && m.value.secureVersion <= MAX_SECURE_VERSION && SegmentLength(s, 24) >= 48
                <==> IsPlausible(s))
            && (m.Some? ==> s[1] >= 1 && m.value.secureVersion == FromLe32(s[36..40]))
  {
    hide ParseImageMetadata, FromLe32;
    MetadataIsBytes(s);
    var m := ParseImageMetadata(s[..APP_DESCRIPTOR_PREFIX_SIZE]);
    if m.Some? { assert Describes(s, m.value); }
  }

  lemma SegmentsAreWalked(s: Slot)
    requires s[1] >= 1
    ensures var r := SegmentsEnd(s, 0, s[1], 24);
            && (SegmentLength(s, 24) < 48 <==> r == Err(BadHeader))
            && (SegmentLength(s, 24) >= 48 ==>
                  && (r.Ok? ==> exists p :: WalksAll(s, p)) && (r.Err? ==> r.error == BadExtent)
                  && forall p :: WalksAll(s, p) ==> r == Ok(p[|p| - 1]))
  {
    hide SegmentLength, FromLe32;
    if SegmentLength(s, 24) >= 48 {
      assert IsWalk(s, [24]);
      WalkOn(s, s[1], [24]);
      forall p | WalksAll(s, p) ensures Extends(s, [24], p, s[1]) {
        assert [24] <= p by { assert p[..1] == [24]; }
      }
      hide IsWalk;
      forall p | Extends(s, [24], p, s[1]) ensures WalksAll(s, p) {
      }
    }
  }

  /**
   * What the verification of an installed slot decides, on the slot's bytes: each verdict has exactly its cause, and
   * the evidence of an accepted image is what those bytes say.
   */
  lemma InstalledExactly(s: Slot, trusted: Bytes, c: Crypto)
    ensures var r := InstalledImage(s, trusted, c);
            && (r == Err(BadHeader) <==> !IsPlausible(s))
            && (r == Err(BadExtent) <==> IsPlausible(s) && !exists p :: WalksAll(s, p))
            && (r == Err(BadSignature) <==> IsPlausible(s) && (exists p :: WalksAll(s, p)) && !IsSigned(s, trusted, c))
            && (r.Ok? <==> IsPlausible(s) && IsSigned(s, trusted, c))
            && (r.Ok? ==> IsEvidence(s, r.value, trusted, c))
  {
    hide SignedBelow, IsWalk, IsPlausible, ParseImageMetadata, FromLe32, SignatureOffset, SegmentsEnd, SegmentLength;
    HeaderIsPlausible(s);
    if ParseImageMetadata(s[..APP_DESCRIPTOR_PREFIX_SIZE]).Some? {
      SegmentsAreWalked(s);
      var end := SegmentsEnd(s, 0, s[1], 24);
      if end.Ok? { OffsetFits(end.value); }
    }
  }

  lemma OffsetFits(position: nat)
    requires position <= SEGMENT_LIMIT
    ensures SignatureOffset(position) % 0x1000 == 0 && 0x1000 <= SignatureOffset(position) <= 0x1d_f000
  {
    SignatureOffsetIsLeast(position);
    ExtentAlwaysFits(position);
  }

  /** Some call since position `from` on the tape reported failure. */
  ghost predicate Faulted(device: FlashDevice, from: nat)
    reads device
  {
    exists i :: from <= i < device.pos && !device.tape(i).ok
  }

  /** Walk the segment headers. */
  method MeasureSegments(device: FlashDevice, slot: byte, count: nat) returns (r: Result<nat, InstalledImageError>)
    requires slot <= 1
    modifies device`pos
    ensures device.pos >= old(device.pos)
    ensures r == SegmentsEnd(device.slots[slot], 0, count, 24) || (r == Err(BadRead) && Faulted(device, old(device.pos)))
    ensures r.Ok? ==> r.value <= SEGMENT_LIMIT
  {
    ghost var s := device.slots[slot];
    var position: nat := 24;
    for segment := 0 to count
      invariant position <= SEGMENT_LIMIT
      invariant old(device.pos) <= device.pos
      invariant SegmentsEnd(s, segment, count, position) == SegmentsEnd(s, 0, count, 24)
    {
      assert InSlot(slot, position, 8);
      var header := device.Read(slot, position, 8);
      if header.None? {
        assert !device.tape(device.pos - 1).ok;
        return Err(BadRead);
      }
      var length := FromLe32(header.value[4..8]);
      assert header.value[4..8] == s[position + 4..position + 8];
      if segment == 0 && length < 48 { return Err(BadHeader); }
      if position + 8 + length > SEGMENT_LIMIT { return Err(BadExtent); }
      position := position + 8 + length;
    }
    r := Ok(position);
  }

  /** Feed everything below `limit` to the hasher, a kilobyte at a time. */
  method ReadBelow(device: FlashDevice, slot: byte, limit: nat) returns (hashed: Option<Bytes>)
    requires slot <= 1 && limit <= OTA_SLOT_SIZE
    modifies device`pos
    ensures device.pos >= old(device.pos)
    ensures hashed == Some(device.slots[slot][..limit]) || (hashed == None && Faulted(device, old(device.pos)))
  {
    ghost var s := device.slots[slot];
    var taken: Bytes := [];
    var offset := 0;
    while offset < limit
      invariant offset <= limit && old(device.pos) <= device.pos
      invariant taken == s[..offset]
    {
      var length := Min(limit - offset, 1024);
      assert InSlot(slot, offset, length);
      var chunk := device.Read(slot, offset, length);
      if chunk.None? {
        assert !device.tape(device.pos - 1).ok;
        return None;
      }
      taken := taken + chunk.value;
      offset := offset + length;
    }
    hashed := Some(taken);
  }

  method CheckSignature(device: FlashDevice, c: Crypto, slot: byte, offset: nat, trusted: Bytes, digest: Bytes)
    returns (r: Result<bool, InstalledImageError>)
    requires slot <= 1 && offset + SIGNATURE_BLOCK_SIZE <= OTA_SLOT_SIZE
    requires digest == c.sha(device.slots[slot][..offset])
    modifies device`pos
    ensures device.pos >= old(device.pos)
    ensures r.Ok? && r.value ==> SignedBelow(device.slots[slot], offset, trusted, c)
    ensures r == Ok(false) ==> !SignedBelow(device.slots[slot], offset, trusted, c) || Faulted(device, old(device.pos))
    ensures r.Err? ==> r == Err(BadRead) && Faulted(device, old(device.pos))
  {
    hide ParseSignatureBlock, SignedBelow;
    AcceptedIsSigned(device.slots[slot], offset, trusted, c);
    var block := device.Read(slot, offset, SIGNATURE_BLOCK_SIZE);
    if block.None? {
      assert !device.tape(device.pos - 1).ok;
      return Err(BadRead);
    }
    var signature := ParseSignatureBlock(block.value, trusted, c);
    if signature.None? { return Ok(false); }
    if signature.value.imageDigest != digest { return Ok(false); }
    var valid := device.VerifyRsa(c, signature.value.publicKey, signature.value.signature, digest);
    if valid.None? { assert !device.tape(device.pos - 1).ok; }
    r := Ok(valid == Some(true));
  }

  /**
   * Read and authenticate an installed slot. Nothing is changed and every read stays in the slot;
   * a failing read or signature engine can only turn the verdict into an error.
   */
  method VerifyInstalledSlot(device: FlashDevice, c: Crypto, slot: byte, trusted: Bytes)
    returns (r: Result<VerifiedInstalledImage, InstalledImageError>)
    modifies device`pos
    ensures slot > 1 ==> r == Err(BadSlot)
    ensures slot <= 1 ==>
              || r == InstalledImage(device.slots[slot], trusted, c)
              || ((r == Err(BadRead) || r == Err(BadSignature)) && Faulted(device, old(device.pos)))
    ensures r.Ok? ==> IsPlausible(device.slots[slot]) && IsSigned(device.slots[slot], trusted, c)
  {
    hide SignedBelow, IsSigned, IsPlausible, SegmentsEnd, TrailerEnd, ParseImageMetadata;
    if slot <= 1 { InstalledExactly(device.slots[slot], trusted, c); }
    if slot > 1 { return Err(BadSlot); }
    var prefix := device.Read(slot, 0, APP_DESCRIPTOR_PREFIX_SIZE);
    if prefix.None? {
      assert !device.tape(device.pos - 1).ok;
      return Err(BadRead);
    }
    var metadata := ParseImageMetadata(prefix.value);
    if metadata.None? { return Err(BadHeader); }
    if prefix.value[23] != 1 || metadata.value.secureVersion > MAX_SECURE_VERSION { return Err(BadHeader); }
    var end := MeasureSegments(device, slot, prefix.value[1]);
    if end.Err? { return Err(end.error); }
    var signatureOffset := RoundUpToSector(TrailerEnd(end.value));
    ExtentAlwaysFits(end.value);
    var hashed := ReadBelow(device, slot, signatureOffset);
    if hashed.None? { return Err(BadRead); }
    var digest := c.sha(hashed.value);
    var valid := CheckSignature(device, c, slot, signatureOffset, trusted, digest);
    if valid.Err? { return Err(valid.error); }
    if !valid.value { return Err(BadSignature); }
    r := Ok(VerifiedInstalledImage(metadata.value.secureVersion, signatureOffset + SIGNATURE_SECTOR_SIZE, digest));
  }
}
