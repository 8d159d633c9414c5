/** The host's half of the update protocol: what it accepts, what it sends, what it reads back. */
module HostProtocol {
  import opened Words
  import opened Crc
  import opened OtaMetadata
  import opened FlashBackend
  import opened SignedImage
  import opened UsbUpdate

  const OP_INFO: byte := 0
  const OP_BEGIN: byte := 1
  const OP_WRITE: byte := 2
  const OP_ADVANCE: byte := 3

  datatype HostImage = HostImage(size: nat, sha256: Bytes, secureVersion: u32, version: Bytes)

  datatype HostError =
    | WrongSize
    | NotAnEspImage
    | NoVersion
    | NotUtf8
    | Truncated
    | BadVersionField
    | WrongProtocol
    | UnknownStatus
    | Refused(status: byte)
    | HostRollback
    | NoEraseSession
    | NotReceiving
    | WriteDiverged
    | NotActivated

  datatype DeviceStatus = DeviceStatus(
    status: byte, phase: byte, targetSlot: byte, sessionId: u32, completed: u32, total: u32,
    currentSecureVersion: u32, currentVersion: Bytes)

  function LoadImage(image: Bytes, c: Crypto, utf8: Bytes -> bool): Result<HostImage, HostError> {
    if |image| < SIGNATURE_SECTOR_SIZE * 2 || |image| > OTA_SLOT_SIZE || |image| % SIGNATURE_SECTOR_SIZE != 0
    then Err(WrongSize)
    else if image[0] != ESP_IMAGE_MAGIC || !(1 <= image[1] <= 16)
         || Le16(image[12..14]) != ESP32S2_CHIP_ID || FromLe32(image[32..36]) != ESP_APP_DESCRIPTOR_MAGIC
    then Err(NotAnEspImage)
    else
      var version := UntilZero(image[48..80]);
      // Without a NUL the whole 32-byte field is taken, which is then too long.
      if version.None? || version.value == [] then Err(NoVersion)
      else if !utf8(version.value) then Err(NotUtf8)
      else Ok(HostImage(|image|, c.sha(image), FromLe32(image[36..40]), version.value))
  }

  /** The host takes an image exactly when the device's own parser takes its header. */
  lemma HostAndDeviceAgree(image: Bytes, c: Crypto, utf8: Bytes -> bool)
    requires SIGNATURE_SECTOR_SIZE * 2 <= |image| <= OTA_SLOT_SIZE && |image| % SIGNATURE_SECTOR_SIZE == 0
    ensures forall h :: LoadImage(image, c, utf8) == Ok(h) <==>
              && ParseImageMetadata(image[..APP_DESCRIPTOR_PREFIX_SIZE]) == Some(ImageMetadata(h.secureVersion, h.version))
              && h.size == |image| && h.sha256 == c.sha(image) && utf8(h.version)
    ensures forall h :: LoadImage(image, c, utf8) == Ok(h) <==>
              && Describes(image, ImageMetadata(h.secureVersion, h.version))
              && h.size == |image| && h.sha256 == c.sha(image) && utf8(h.version)
  {
    hide Describes;
    MetadataIsBytes(image);
    var p := image[..APP_DESCRIPTOR_PREFIX_SIZE];
    assert p[12..14] == image[12..14] && p[32..36] == image[32..36];
    assert p[36..40] == image[36..40] && p[48..80] == image[48..80];
  }

  function DecodeStatus(reply: Bytes, utf8: Bytes -> bool): Result<DeviceStatus, HostError> {
    if |reply| < RESPONSE_FIXED then Err(Truncated) else
    var versionLength := reply[20] as nat;
    if versionLength == 0 || versionLength > 31 || |reply| != RESPONSE_FIXED + versionLength then Err(BadVersionField)
    else if !utf8(reply[21..]) then Err(NotUtf8)
    else if reply[1] != PROTOCOL_VERSION then Err(WrongProtocol)
    else if reply[0] > 13 || reply[2] > 5 then Err(UnknownStatus)
    else Ok(DeviceStatus(
      reply[0], reply[2], reply[3], FromLe32(reply[4..8]), FromLe32(reply[8..12]), FromLe32(reply[12..16]),
      FromLe32(reply[16..20]), reply[21..]))
  }

  /** The host takes exactly these bytes for a status record, and exactly these fields from them. */
  lemma DecodesExactly(reply: Bytes, utf8: Bytes -> bool)
    ensures var r := DecodeStatus(reply, utf8);
            && (r.Ok? <==>
                  && |reply| >= 22 && reply[20] <= 31 && |reply| == 21 + reply[20] as nat && utf8(reply[21..])
                  && reply[0] < 14 && reply[1] == 1 && reply[2] < 6)
            && (r.Ok? ==>
                  && r.value.status == reply[0] && r.value.phase == reply[2] && r.value.targetSlot == reply[3]
                  && r.value.sessionId == FromLe32(reply[4..8]) && r.value.completed == FromLe32(reply[8..12])
                  && r.value.total == FromLe32(reply[12..16]) && r.value.currentSecureVersion == FromLe32(reply[16..20])
                  && r.value.currentVersion == reply[21..])
  {
  }

  /** What the device says about itself is what the host reads. */
  lemma DecodeWhatWasEncoded(u: Updater, status: StatusCode, utf8: Bytes -> bool)
    requires SessionFits(u) && 0 < |u.currentVersion| <= MAX_VERSION_LENGTH
    ensures DecodeStatus(EncodeResponse(u, status), utf8) ==
            if !utf8(u.currentVersion) then Err(NotUtf8)
            else if u.session.None? then
              Ok(DeviceStatus(status.Code(), Idle.Code(), 0xff, 0, 0, 0, u.currentSecureVersion, u.currentVersion))
            else
              var s := u.session.value;
              Ok(DeviceStatus(status.Code(), s.phase.Code(), s.targetSlot, s.id, s.completed, s.total,
                              u.currentSecureVersion, u.currentVersion))
  {
    var (id, completed, total) :=
      if u.session.Some? then (u.session.value.id, u.session.value.completed, u.session.value.total) else (0, 0, 0);
    var r := EncodeResponse(u, status);
    hide ToLe32, FromLe32;
    assert r[4..8] == ToLe32(id) && r[8..12] == ToLe32(completed) && r[12..16] == ToLe32(total);
    assert r[16..20] == ToLe32(u.currentSecureVersion) && r[21..] == u.currentVersion;
    Le32RoundTrip(id);
    Le32RoundTrip(completed);
    Le32RoundTrip(total);
    Le32RoundTrip(u.currentSecureVersion);
  }

  function BeginRequest(m: HostImage): Bytes
    requires m.size <= OTA_SLOT_SIZE && |m.version| < 0x100
  {
    [OP_BEGIN, PROTOCOL_VERSION] + ToLe32(m.size) + m.sha256 + ToLe32(m.secureVersion) + [|m.version|] + m.version
  }

  function AdvanceRequest(id: u32): Bytes {
    [OP_ADVANCE] + ToLe32(id)
  }

  function WriteRequest(id: u32, offset: u32, data: Bytes): Bytes {
    [OP_WRITE] + ToLe32(id) + ToLe32(offset) + data
  }

  lemma BeginFields(m: HostImage)
    requires m.size <= OTA_SLOT_SIZE && |m.version| <= MAX_VERSION_LENGTH && |m.sha256| == 32
    ensures var r := BeginRequest(m)[1..];
            && BeginRequest(m)[0] == OP_BEGIN && |r| == BEGIN_FIXED + |m.version|
            && r[0] == PROTOCOL_VERSION && FromLe32(r[1..5]) == m.size && r[5..37] == m.sha256
            && FromLe32(r[37..41]) == m.secureVersion && r[41] == |m.version| && r[42..] == m.version
  {
    var r := BeginRequest(m)[1..];
    assert r == [PROTOCOL_VERSION] + ToLe32(m.size) + m.sha256 + ToLe32(m.secureVersion) + [|m.version|] + m.version;
    assert r[1..5] == ToLe32(m.size) && r[37..41] == ToLe32(m.secureVersion);
    assert r[5..37] == m.sha256 && r[42..] == m.version;
    Le32RoundTrip(m.size);
    Le32RoundTrip(m.secureVersion);
  }

  lemma AdvanceFields(id: u32)
    ensures |AdvanceRequest(id)| == 5 && AdvanceRequest(id)[0] == OP_ADVANCE
    ensures ParseSessionId(AdvanceRequest(id)[1..]) == Some(id)
  {
    assert AdvanceRequest(id)[1..] == ToLe32(id);
    Le32RoundTrip(id);
  }

  lemma WriteFields(id: u32, offset: u32, data: Bytes)
    ensures var r := WriteRequest(id, offset, data);
            && r != [] && r[0] == OP_WRITE && |r[1..]| == 8 + |data|
            && FromLe32(r[1..][..4]) == id && FromLe32(r[1..][4..8]) == offset && r[1..][8..] == data
  {
    var r := WriteRequest(id, offset, data)[1..];
    assert r == ToLe32(id) + ToLe32(offset) + data;
    assert r[..4] == ToLe32(id) && r[4..8] == ToLe32(offset) && r[8..] == data;
    Le32RoundTrip(id);
    Le32RoundTrip(offset);
  }
}
