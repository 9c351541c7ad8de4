/** The 40-byte packet header (src/nnrp/core/header.py). */
module Header {
  import opened Outcomes
  import opened Wire

  /** The four magic bytes `NNRP` read as one little-endian number. */
  const MAGIC: nat := 0x50524E4E

  const HEADER_LENGTH: nat := 40

  const FRAME_SUBMIT: nat := 0x10
  const RESULT_PUSH: nat := 0x12
  const RESULT_DROP: nat := 0x13

  /** The numbers `MessageType` declares (src/nnrp/core/enums.py). */
  predicate IsMessageType(code: nat) {
    0x01 <= code <= 0x0A || 0x10 <= code <= 0x1C || 0x20 <= code <= 0x21 || 0x30 <= code <= 0x49
  }

  /** A member of `MessageType`; other numbers never reach a header object. */
  type MessageCode = code: nat | IsMessageType(code) witness 1

  /** A member of `WireFormat`, whose one value is CURRENT. */
  type WireFormatCode = code: nat | code == 0

  datatype PacketHeader = PacketHeader(
    versionMajor: nat,
    wireFormat: WireFormatCode,
    msgType: MessageCode,
    flags: nat,
    metaLen: nat,
    bodyLen: nat,
    sessionId: nat,
    frameId: nat,
    viewId: nat,
    routeId: nat,
    traceId: nat,
    headerLen: nat)

  /** magic, version, wire format, type, header length, flags, two lengths, two u32 ids, two u16 and a u64. */
  const LAYOUT: seq<nat> := [4] + [1, 1, 1, 1] + [4, 4, 4, 4, 4] + [2, 2, 8]

  lemma LayoutSize()
    ensures Size(LAYOUT) == HEADER_LENGTH
  {
    SizeConcat([4] + [1, 1, 1, 1] + [4, 4, 4, 4, 4], [2, 2, 8]);
    SizeConcat([4] + [1, 1, 1, 1], [4, 4, 4, 4, 4]);
    SizeConcat([4], [1, 1, 1, 1]);
  }

  function HeaderValues(h: PacketHeader): seq<nat> {
    [MAGIC, h.versionMajor, h.wireFormat, h.msgType, h.headerLen, h.flags, h.metaLen, h.bodyLen, h.sessionId,
     h.frameId, h.viewId, h.routeId, h.traceId]
  }

  /** A header that states its own length and whose fields fit their widths. */
  predicate WellFormed(h: PacketHeader) {
    && h.headerLen == HEADER_LENGTH
    && Fits(HeaderValues(h), LAYOUT)
  }

  function PackHeader(h: PacketHeader): (r: Result<bytes, Fault>)
    ensures r.Ok? ==> |r.value| == HEADER_LENGTH
  {
    LayoutSize();
    if h.headerLen != HEADER_LENGTH then Err(BadLength)
    else if !Fits(HeaderValues(h), LAYOUT) then Err(OutOfRange)
    else Ok(PackRecord(HeaderValues(h), LAYOUT))
  }

  function UnpackHeader(s: bytes): (r: Result<PacketHeader, Fault>)
    ensures r.Ok? ==> |s| == HEADER_LENGTH && r.value.headerLen == HEADER_LENGTH
  {
    LayoutSize();
    if |s| != HEADER_LENGTH then Err(BadLength)
    else
      var v := UnpackRecord(s, LAYOUT);
      if v[0] != MAGIC then Err(BadMagic)
      else if v[4] != HEADER_LENGTH then Err(BadLength)
      else if v[2] != 0 then Err(BadEnum)
      else if !IsMessageType(v[3]) then Err(BadEnum)
      else Ok(PacketHeader(v[1], v[2], v[3], v[5], v[6], v[7], v[8], v[9], v[10], v[11], v[12], v[4]))
  }

  /** A header is refused exactly when it is not well-formed; every other one is read back unchanged. */
  lemma HeaderRoundTrip(h: PacketHeader)
    ensures PackHeader(h).Ok? <==> WellFormed(h)
    ensures WellFormed(h) ==> UnpackHeader(PackHeader(h).value) == Ok(h)
  {
    if WellFormed(h) {
      UnpackPackRecord(HeaderValues(h), LAYOUT);
      LayoutSize();
    }
  }

  lemma AcceptedValues(s: bytes)
    requires UnpackHeader(s).Ok?
    ensures |s| == Size(LAYOUT) && HeaderValues(UnpackHeader(s).value) == UnpackRecord(s, LAYOUT)
  {

    LayoutSize();
  }

  /** Every accepted header is well-formed and re-encodes to the bytes it came from. */
  lemma HeaderReencode(s: bytes)
    requires UnpackHeader(s).Ok?
    ensures WellFormed(UnpackHeader(s).value)
    ensures PackHeader(UnpackHeader(s).value) == Ok(s)
  {
    AcceptedValues(s);
    PackUnpackRecord(s, LAYOUT);
  }
}
