/** One packet: header, metadata and body (src/nnrp/core/packet.py:89-157). */
module Packets {
  import opened Outcomes
  import opened Wire
  import opened Header

  datatype Packet = Packet(header: PacketHeader, metadata: bytes, body: bytes)

  /** A packet whose header is well-formed and states the lengths of its parts. */
  predicate Sendable(p: Packet) {
    WellFormed(p.header) && |p.metadata| == p.header.metaLen && |p.body| == p.header.bodyLen
  }

  function PackPacket(p: Packet): (r: Result<bytes, Fault>) {
    if |p.metadata| != p.header.metaLen then Err(BadLength)
    else if |p.body| != p.header.bodyLen then Err(BadLength)
    else
      var header :- PackHeader(p.header);
      Ok(header + p.metadata + p.body)
  }

  function UnpackPacket(payload: bytes): (r: Result<Packet, Fault>) {
    if |payload| < HEADER_LENGTH then Err(BadLength)
    else
      var h :- UnpackHeader(payload[..HEADER_LENGTH]);
      if |payload| != HEADER_LENGTH + h.metaLen + h.bodyLen then Err(BadLength)
      else
        var bodyStart := HEADER_LENGTH + h.metaLen;
        Ok(Packet(h, payload[HEADER_LENGTH..bodyStart], payload[bodyStart..]))
  }

  /** The bytes of a packet, once it is known to pack. */
  function Encoded(p: Packet): (s: bytes)
    requires Sendable(p)
    ensures |s| == HEADER_LENGTH + p.header.metaLen + p.header.bodyLen
  {
    HeaderRoundTrip(p.header);
    PackPacket(p).value
  }

  /** Packing refuses exactly the packets that are not sendable; the others are read back unchanged. */
  lemma PacketRoundTrip(p: Packet)
    ensures PackPacket(p).Ok? <==> Sendable(p)
    ensures Sendable(p) ==> UnpackPacket(Encoded(p)) == Ok(p)
  {
    HeaderRoundTrip(p.header);
    if Sendable(p) {
      var s := Encoded(p);
      var header := PackHeader(p.header).value;
      assert s[..HEADER_LENGTH] == header;
      assert s[HEADER_LENGTH..HEADER_LENGTH + p.header.metaLen] == p.metadata;
      assert s[HEADER_LENGTH + p.header.metaLen..] == p.body;
    }
  }

  /** Every accepted byte string is the encoding of the packet it was read as. */
  lemma PacketReencode(payload: bytes)
    requires UnpackPacket(payload).Ok?
    ensures Sendable(UnpackPacket(payload).value)
    ensures Encoded(UnpackPacket(payload).value) == payload
  {
    HeaderReencode(payload[..HEADER_LENGTH]);
    var p := UnpackPacket(payload).value;
    assert payload == payload[..HEADER_LENGTH] + p.metadata + p.body;
  }
}
