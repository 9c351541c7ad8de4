/** WebSocket binary frames and batches of them (src/nnrp/runtime/__init__.py:224-291). */
module WebSocket {
  import opened Outcomes
  import opened Wire
  import opened Header
  import opened Packets
  import opened Streams

  datatype FrameError = NegativeLimit | TooMany | IncompleteFrame | MalformedHeader | WrongLength

  /** The header an application sees: everything but the lengths. */
  datatype FrameHeader = FrameHeader(
    versionMajor: nat,
    wireFormat: WireFormatCode,
    messageType: MessageCode,
    flags: nat,
    sessionId: nat,
    frameId: nat,
    viewId: nat,
    routeId: nat,
    traceId: nat)

  datatype RuntimeFrame = RuntimeFrame(header: FrameHeader, metadata: bytes, body: bytes)

  function FrameHeaderOf(h: PacketHeader): FrameHeader {
    FrameHeader(h.versionMajor, h.wireFormat, h.msgType, h.flags, h.sessionId, h.frameId, h.viewId, h.routeId,
                h.traceId)
  }

  function FrameOf(p: Packet): RuntimeFrame {
    RuntimeFrame(FrameHeaderOf(p.header), p.metadata, p.body)
  }

  function FramesOf(packets: seq<Packet>): (frames: seq<RuntimeFrame>)
    ensures |frames| == |packets|
  {
    seq(|packets|, i requires 0 <= i < |packets| => FrameOf(packets[i]))
  }

  /** The packet that carries a frame: the lengths are those of its parts. */
  function PacketOf(f: RuntimeFrame): Packet {
    Packet(
      PacketHeader(f.header.versionMajor, f.header.wireFormat, f.header.messageType, f.header.flags,
                   |f.metadata|, |f.body|, f.header.sessionId, f.header.frameId, f.header.viewId, f.header.routeId,
                   f.header.traceId, HEADER_LENGTH),
      f.metadata, f.body)
  }

  function EncodeFrame(f: RuntimeFrame): (r: Result<bytes, Fault>) {
    var header :- PackHeader(PacketOf(f).header);
    Ok(header + f.metadata + f.body)
  }

  function DecodeFrame(frame: bytes): (r: Result<RuntimeFrame, FrameError>) {
    if |frame| < HEADER_LENGTH then Err(IncompleteFrame)
    else
      match UnpackHeader(frame[..HEADER_LENGTH])
      case Err(_) => Err(MalformedHeader)
      case Ok(h) =>
        if |frame| != h.headerLen + h.metaLen + h.bodyLen then Err(WrongLength)
        else
          var bodyStart := h.headerLen + h.metaLen;
          Ok(RuntimeFrame(FrameHeaderOf(h), frame[h.headerLen..bodyStart], frame[bodyStart..]))
  }

  /** The frame codec is the packet codec seen without lengths. */
  lemma DecodeFrameIsUnpack(frame: bytes)
    ensures DecodeFrame(frame).Ok? <==> UnpackPacket(frame).Ok?
    ensures UnpackPacket(frame).Ok? ==> DecodeFrame(frame).value == FrameOf(UnpackPacket(frame).value)
  {
  }

  /** A frame that encodes is decoded unchanged. */
  lemma FrameRoundTrip(f: RuntimeFrame)
    ensures EncodeFrame(f).Ok? <==> Sendable(PacketOf(f))
    ensures EncodeFrame(f).Ok? ==> DecodeFrame(EncodeFrame(f).value) == Ok(f)
  {
    PacketRoundTrip(PacketOf(f));
    HeaderRoundTrip(PacketOf(f).header);
    if EncodeFrame(f).Ok? {
      DecodeFrameIsUnpack(EncodeFrame(f).value);
    }
  }

  /**
   What a batch is worth, from one reading of all its bytes: anything past the
   allowed number of frames is too many, before it is looked at; otherwise a
   refused header, left-over bytes, or the frames.
   */
  function Verdict(batch: bytes, limit: int): Result<seq<RuntimeFrame>, FrameError> {
    var parse := ParseAll(batch);
    if limit < 0 then Err(NegativeLimit)
    else if limit > 0 && (|parse.packets| > limit || (|parse.packets| == limit && parse.rest != [])) then Err(TooMany)
    else if parse.failed then Err(MalformedHeader)
    else if parse.rest != [] then Err(IncompleteFrame)
    else Ok(FramesOf(parse.packets))
  }

  /** Part of a batch is read as `packets`; what waits after them is `here`. */
  ghost predicate ReadTo(batch: bytes, packets: seq<Packet>, here: bytes) {
    ParseAll(batch) == Then(Parse(packets, [], false), ParseAll(here))
  }

  lemma ReadNothing(batch: bytes)
    ensures ReadTo(batch, [], batch)
  {
    assert [] + ParseAll(batch).packets == ParseAll(batch).packets;
  }

  lemma ReadOne(batch: bytes, packets: seq<Packet>, here: bytes, p: Packet, rest: bytes)
    requires ReadTo(batch, packets, here) && TryUnpack(here) == Complete(p, rest)
    ensures ReadTo(batch, packets + [p], rest)
    ensures FramesOf(packets + [p]) == FramesOf(packets) + [FrameOf(p)]
  {
    hide TryUnpack, FrameOf;
    assert packets + ([p] + ParseAll(rest).packets) == (packets + [p]) + ParseAll(rest).packets;
  }

  /** Where the loop stops: at the limit, at bytes that hold no whole packet, or at the end. */
  lemma ReadStops(batch: bytes, packets: seq<Packet>, here: bytes, limit: nat)
    requires ReadTo(batch, packets, here) && (limit > 0 ==> |packets| <= limit)
    ensures here != [] && limit > 0 && |packets| == limit ==> Verdict(batch, limit) == Err(TooMany)
    ensures here != [] && (limit > 0 ==> |packets| < limit) && !TryUnpack(here).Complete? ==>
              Verdict(batch, limit) == Err(if TryUnpack(here).Malformed? then MalformedHeader else IncompleteFrame)
    ensures here == [] ==> Verdict(batch, limit) == Ok(FramesOf(packets))
  {
    hide TryUnpack, FramesOf;
    NothingWaits();
    assert packets + [] == packets;
  }

  /** What the first bytes show of a packet. */
  lemma FirstBytes(here: bytes)
    ensures |here| < HEADER_LENGTH ==> TryUnpack(here) == Incomplete
    ensures |here| >= HEADER_LENGTH && UnpackHeader(here[..HEADER_LENGTH]).Err? ==> TryUnpack(here).Malformed?
    ensures |here| >= HEADER_LENGTH && UnpackHeader(here[..HEADER_LENGTH]).Ok? ==>
              var h := UnpackHeader(here[..HEADER_LENGTH]).value;
              |here| < h.headerLen + h.metaLen + h.bodyLen ==> TryUnpack(here) == Incomplete
  {
  }

  /** The body of the loop: the frame at `cursor` and where the next one starts. */
  method NextFrame(batch: bytes, cursor: nat) returns (r: Result<(RuntimeFrame, nat), FrameError>)
    requires cursor <= |batch|
    ensures match TryUnpack(batch[cursor..])
            case Incomplete => r == Err(IncompleteFrame)
            case Malformed(_) => r == Err(MalformedHeader)
            case Complete(p, rest) =>
              r.Ok? && r.value.0 == FrameOf(p) && cursor < r.value.1 <= |batch| && batch[r.value.1..] == rest
  {
    hide UnpackHeader, UnpackPacket, DecodeFrame, FrameOf, TryUnpack;
    ghost var here := batch[cursor..];
    FirstBytes(here);
    if |batch| - cursor < HEADER_LENGTH {
      return Err(IncompleteFrame);
    }
    assert batch[cursor..cursor + HEADER_LENGTH] == here[..HEADER_LENGTH];
    var unpacked := UnpackHeader(batch[cursor..cursor + HEADER_LENGTH]);
    if unpacked.Err? {
      return Err(MalformedHeader);
    }
    var header := unpacked.value;
    var frameLen := header.headerLen + header.metaLen + header.bodyLen;
    if |batch| - cursor < frameLen {
      return Err(IncompleteFrame);
    }
    ghost var p := TakeWhole(here, header);
    assert batch[cursor..cursor + frameLen] == here[..frameLen];
    // The header was accepted and the length is right, so this cannot be refused.
    var frame := DecodeFrame(batch[cursor..cursor + frameLen]);
    assert batch[cursor + frameLen..] == here[frameLen..];
    return Ok((frame.value, cursor + frameLen));
  }

  /** Decodes a batch frame by frame; agrees with reading the whole batch at once, refusals included. */
  method DecodeBatch(batch: bytes, limit: int) returns (r: Result<seq<RuntimeFrame>, FrameError>)
    ensures r == Verdict(batch, limit)
    ensures limit < 0 <==> r == Err(NegativeLimit)
    ensures r.Ok? <==>
              && limit >= 0 && !ParseAll(batch).failed && ParseAll(batch).rest == []
              && (limit > 0 ==> |ParseAll(batch).packets| <= limit)
    ensures r.Ok? ==> |r.value| == |ParseAll(batch).packets|
    ensures r == Err(TooMany) <==>
              && limit > 0
              && (|ParseAll(batch).packets| > limit
                  || (|ParseAll(batch).packets| == limit && ParseAll(batch).rest != []))
    ensures r == Err(MalformedHeader) ==> ParseAll(batch).failed
  {
    VerdictIs(batch, limit);
    if limit < 0 {
      return Err(NegativeLimit);
    }
    hide FrameOf, TryUnpack, Verdict, ReadTo, FramesOf, ParseAll, Then;
    var frames: seq<RuntimeFrame> := [];
    ghost var packets: seq<Packet> := [];
    var cursor := 0;
    ReadNothing(batch);
    assert batch[0..] == batch;
    NoFrames();
    while cursor < |batch|
      invariant 0 <= cursor <= |batch| && |frames| == |packets|
      invariant frames == FramesOf(packets) && ReadTo(batch, packets, batch[cursor..])
      invariant limit != 0 ==> |frames| <= limit
    {
      ghost var here := batch[cursor..];
      ReadStops(batch, packets, here, limit);
      if limit != 0 && |frames| >= limit {
        return Err(TooMany);
      }
      var next := NextFrame(batch, cursor);
      if next.Err? {
        return Err(next.error);
      }
      ReadOne(batch, packets, here, TryUnpack(here).packet, TryUnpack(here).rest);
      packets := packets + [TryUnpack(here).packet];
      frames := frames + [next.value.0];
      cursor := next.value.1;
    }
    ReadStops(batch, packets, batch[cursor..], limit);
    return Ok(frames);
  }

  lemma VerdictIs(batch: bytes, limit: int)
    ensures var r, parse := Verdict(batch, limit), ParseAll(batch);
            && (limit < 0 <==> r == Err(NegativeLimit))
            && (r.Ok? <==> && limit >= 0 && !parse.failed && parse.rest == []
                           && (limit > 0 ==> |parse.packets| <= limit))
            && (r.Ok? ==> |r.value| == |parse.packets|)
            && (r == Err(TooMany) <==>
                limit > 0 && (|parse.packets| > limit || (|parse.packets| == limit && parse.rest != [])))
            && (r == Err(MalformedHeader) ==> parse.failed)
  {
    ParseConsumes(batch);
    NothingWaits();
  }

  lemma NoFrames()
    ensures FramesOf([]) == []
  {
  }

  ghost method TakeWhole(here: bytes, header: PacketHeader) returns (p: Packet)
    requires |here| >= HEADER_LENGTH && UnpackHeader(here[..HEADER_LENGTH]) == Ok(header)
    requires |here| >= header.headerLen + header.metaLen + header.bodyLen
    ensures var length := header.headerLen + header.metaLen + header.bodyLen;
            && length > 0
            && TryUnpack(here) == Complete(p, here[length..])
            && UnpackPacket(here[..length]) == Ok(p)
            && DecodeFrame(here[..length]) == Ok(FrameOf(p))
  {
    var length := header.headerLen + header.metaLen + header.bodyLen;
    assert here[..length][..HEADER_LENGTH] == here[..HEADER_LENGTH];
    DecodeFrameIsUnpack(here[..length]);
    p := UnpackPacket(here[..length]).value;
  }

  /** A batch made by concatenating encoded frames decodes to exactly those frames, if they are not too many. */
  lemma BatchOfFrames(frames: seq<RuntimeFrame>, limit: nat)
    requires forall f :: f in frames ==> EncodeFrame(f).Ok?
    ensures var packets := seq(|frames|, i requires 0 <= i < |frames| => PacketOf(frames[i]));
            && AllSendable(packets)
            && Verdict(Stream(packets), limit) == if limit > 0 && |frames| > limit then Err(TooMany) else Ok(frames)
  {
    hide PacketOf, FrameOf, EncodeFrame, Sendable, TryUnpack;
    var packets := seq(|frames|, i requires 0 <= i < |frames| => PacketOf(frames[i]));
    forall p | p in packets
      ensures Sendable(p)
    {
      var i :| 0 <= i < |frames| && packets[i] == PacketOf(frames[i]) && packets[i] == p;
      FrameRoundTrip(frames[i]);
    }
    NothingWaits();
    ParseUnique(packets, []);
    assert Stream(packets) + [] == Stream(packets);
    forall i | 0 <= i < |frames|
      ensures FrameOf(packets[i]) == frames[i]
    {
      SameFrame(frames[i]);
    }
    assert FramesOf(packets) == frames;
  }

  lemma NothingWaits()
    ensures TryUnpack([]) == Incomplete
  {
  }

  lemma SameFrame(f: RuntimeFrame)
    ensures FrameOf(PacketOf(f)) == f
  {
  }
}
