/**
 Cutting a byte stream into packets.  `ParseAll` reads a whole byte string at
 once; the incremental readers of the TCP and QUIC adapters and the WebSocket
 batch decoder are proved against it.
 */
module Streams {
  import opened Outcomes
  import opened Wire
  import opened Header
  import opened Packets

  /** One attempt to take a packet off the front of a buffer (src/nnrp/adapters/tcp.py:401-412). */
  datatype Attempt = Incomplete | Malformed(fault: Fault) | Complete(packet: Packet, rest: bytes)

  function TryUnpack(buffer: bytes): Attempt {
    if |buffer| < HEADER_LENGTH then Incomplete
    else
      match UnpackHeader(buffer[..HEADER_LENGTH])
      case Err(fault) => Malformed(fault)
      case Ok(h) =>
        var length := h.headerLen + h.metaLen + h.bodyLen;
        if |buffer| < length then Incomplete
        else
          match UnpackPacket(buffer[..length])
          case Err(fault) => Malformed(fault)
          case Ok(p) => Complete(p, buffer[length..])
  }

  /** Taking a packet removes exactly its encoding, hence at least a header's worth of bytes. */
  lemma TryUnpackConsumes(buffer: bytes)
    requires TryUnpack(buffer).Complete?
    ensures Sendable(TryUnpack(buffer).packet)
    ensures buffer == Encoded(TryUnpack(buffer).packet) + TryUnpack(buffer).rest
    ensures |TryUnpack(buffer).rest| + HEADER_LENGTH <= |buffer|
  {
    var h := UnpackHeader(buffer[..HEADER_LENGTH]).value;
    var length := h.headerLen + h.metaLen + h.bodyLen;
    PacketReencode(buffer[..length]);
    assert buffer == buffer[..length] + buffer[length..];
  }

  /** An encoded packet at the front of a buffer is taken off whatever follows it. */
  lemma TryUnpackEncoded(p: Packet, suffix: bytes)
    requires Sendable(p)
    ensures TryUnpack(Encoded(p) + suffix) == Complete(p, suffix)
  {
    PacketRoundTrip(p);
    HeaderRoundTrip(p.header);
    var s := Encoded(p);
    assert (s + suffix)[..HEADER_LENGTH] == PackHeader(p.header).value;
    assert (s + suffix)[..|s|] == s;
    assert (s + suffix)[|s|..] == suffix;
  }

  /** Only `Incomplete` can change when more bytes arrive: once a full header is there, unpacking cannot fail later. */
  lemma TryUnpackExtend(buffer: bytes, more: bytes)
    ensures TryUnpack(buffer).Malformed? ==> TryUnpack(buffer + more) == TryUnpack(buffer)
    ensures TryUnpack(buffer).Complete? ==>
              TryUnpack(buffer + more) == Complete(TryUnpack(buffer).packet, TryUnpack(buffer).rest + more)
  {
    hide UnpackHeader, UnpackPacket, Encoded, Sendable;
    if |buffer| >= HEADER_LENGTH {
      assert (buffer + more)[..HEADER_LENGTH] == buffer[..HEADER_LENGTH];
      match TryUnpack(buffer)
      case Incomplete =>
      case Malformed(_) => HeaderAcceptedUnpacks(buffer);
      case Complete(p, rest) =>
        TryUnpackConsumes(buffer);
        TryUnpackEncoded(p, rest + more);
        assert buffer + more == Encoded(p) + (rest + more);
    }
  }

  lemma HeaderAcceptedUnpacks(buffer: bytes)
    requires |buffer| >= HEADER_LENGTH && TryUnpack(buffer).Malformed?
    ensures UnpackHeader(buffer[..HEADER_LENGTH]).Err?
  {
    match UnpackHeader(buffer[..HEADER_LENGTH])
    case Err(_) =>
    case Ok(h) =>
      var length := h.headerLen + h.metaLen + h.bodyLen;
      assert buffer[..length][..HEADER_LENGTH] == buffer[..HEADER_LENGTH];
  }

  /** What a byte string contains: its packets, the bytes left over, and whether those are malformed. */
  datatype Parse = Parse(packets: seq<Packet>, rest: bytes, failed: bool)

  function ParseAll(buffer: bytes): Parse
    decreases |buffer|
  {
    match TryUnpack(buffer)
    case Incomplete => Parse([], buffer, false)
    case Malformed(_) => Parse([], buffer, true)
    case Complete(p, rest) =>
      TryUnpackConsumes(buffer);
      var tail := ParseAll(rest);
      Parse([p] + tail.packets, tail.rest, tail.failed)
  }

  lemma ParseEmpty()
    ensures ParseAll([]) == Parse([], [], false)
  {
  }

  predicate AllSendable(packets: seq<Packet>) {
    forall p :: p in packets ==> Sendable(p)
  }

  /** The bytes of packets sent one after the other. */
  function Stream(packets: seq<Packet>): bytes
    requires AllSendable(packets)
  {
    if packets == [] then [] else Encoded(packets[0]) + Stream(packets[1..])
  }

  lemma StreamFirst(first: Packet, rest: seq<Packet>)
    requires Sendable(first) && AllSendable(rest)
    ensures AllSendable([first] + rest) && Stream([first] + rest) == Encoded(first) + Stream(rest)
  {
    hide Encoded, Sendable;
    assert ([first] + rest)[1..] == rest;
  }

  lemma {:induction false} StreamAppend(a: seq<Packet>, b: seq<Packet>)
    requires AllSendable(a) && AllSendable(b)
    ensures AllSendable(a + b) && Stream(a + b) == Stream(a) + Stream(b)
  {
    hide Encoded, Sendable;
    if a == [] {
      assert a + b == b;
    } else {
      hide Stream;
      var first, rest := a[0], a[1..];
      assert a == [first] + rest && a + b == [first] + (rest + b);
      StreamAppend(rest, b);
      StreamFirst(first, rest);
      StreamFirst(first, rest + b);
      assert Encoded(first) + (Stream(rest) + Stream(b)) == Encoded(first) + Stream(rest) + Stream(b);
    }
  }

  /** Reading loses nothing: the packets re-encode to the bytes that were consumed. */
  lemma {:induction false} ParseConsumes(buffer: bytes)
    ensures AllSendable(ParseAll(buffer).packets)
    ensures buffer == Stream(ParseAll(buffer).packets) + ParseAll(buffer).rest
    ensures !TryUnpack(ParseAll(buffer).rest).Complete?
    ensures ParseAll(buffer).failed == TryUnpack(ParseAll(buffer).rest).Malformed?
    decreases |buffer|
  {
    hide TryUnpack, Encoded, Sendable;
    match TryUnpack(buffer)
    case Incomplete =>
    case Malformed(_) =>
    case Complete(p, rest) =>
      TryUnpackConsumes(buffer);
      ParseConsumes(rest);
      assert ParseAll(buffer).packets[1..] == ParseAll(rest).packets;
  }

  lemma ParseFirst(p: Packet, after: bytes)
    requires Sendable(p)
    ensures var tail := ParseAll(after);
            ParseAll(Encoded(p) + after) == Parse([p] + tail.packets, tail.rest, tail.failed)
  {
    hide TryUnpack, Encoded, Sendable;
    TryUnpackEncoded(p, after);
  }

  /**
   `ParseAll` is the only reading: whenever a byte string is a run of encoded
   packets followed by bytes that hold no whole packet, those are its packets
   and those are its left-over bytes.
   */
  lemma {:induction false} ParseUnique(packets: seq<Packet>, rest: bytes)
    requires AllSendable(packets)
    requires !TryUnpack(rest).Complete?
    ensures ParseAll(Stream(packets) + rest) == Parse(packets, rest, TryUnpack(rest).Malformed?)
  {
    hide TryUnpack, Encoded, Sendable;
    if packets == [] {
      assert Stream(packets) + rest == rest;
    } else {
      var p, later := packets[0], packets[1..];
      ParseUnique(later, rest);
      assert Stream(packets) + rest == Encoded(p) + (Stream(later) + rest);
      ParseFirst(p, Stream(later) + rest);
      assert packets == [p] + later;
    }
  }

  /** The packets of one reading followed by those of the reading of what it left over. */
  function Then(first: Parse, second: Parse): Parse {
    Parse(first.packets + second.packets, second.rest, second.failed)
  }

  /** Reading `a` first and then the left-over bytes with `b` is reading `a + b` at once. */
  lemma {:induction false} ParseSplit(a: bytes, b: bytes)
    ensures ParseAll(a + b) == Then(ParseAll(a), ParseAll(ParseAll(a).rest + b))
    decreases |a|
  {
    hide TryUnpack, Encoded, Sendable;
    TryUnpackExtend(a, b);
    if TryUnpack(a).Complete? {
      var p, rest := TryUnpack(a).packet, TryUnpack(a).rest;
      TryUnpackConsumes(a);
      ParseSplit(rest, b);
      var first, second := ParseAll(rest), ParseAll(ParseAll(rest).rest + b);
      assert ParseAll(a + b).packets == [p] + (first.packets + second.packets);
      assert [p] + (first.packets + second.packets) == ([p] + first.packets) + second.packets;
    } else {
      assert ParseAll(a).packets == [] && ParseAll(a).rest == a;
      assert [] + ParseAll(a + b).packets == ParseAll(a + b).packets;
    }
  }

  /** A malformed stream stays malformed and yields no further packet. */
  lemma ParseFailedStays(a: bytes, b: bytes)
    requires ParseAll(a).failed
    ensures ParseAll(a + b) == Parse(ParseAll(a).packets, ParseAll(a).rest + b, true)
  {
    ParseSplit(a, b);
    ParseConsumes(a);
    TryUnpackExtend(ParseAll(a).rest, b);
    assert ParseAll(a).packets + [] == ParseAll(a).packets;
  }

  /** Whatever part of a stream of packets has arrived, it reads as a prefix of those packets and never fails. */
  lemma ParsePrefixOfStream(packets: seq<Packet>, arrived: bytes)
    requires AllSendable(packets)
    requires arrived <= Stream(packets)
    ensures !ParseAll(arrived).failed
    ensures ParseAll(arrived).packets <= packets
  {
    var missing := Stream(packets)[|arrived|..];
    assert arrived + missing == Stream(packets) == Stream(packets) + [];
    ParseUnique(packets, []);
    ParseSplit(arrived, missing);
    if ParseAll(arrived).failed {
      ParseFailedStays(arrived, missing);
    }
  }

  /** The bytes of a sequence of chunks. */
  function Concat(chunks: seq<bytes>): bytes {
    if chunks == [] then [] else Concat(chunks[..|chunks| - 1]) + chunks[|chunks| - 1]
  }

  /**
   A growing byte buffer that packets are cut from in place: the `bytearray`
   both adapters hand to `_try_unpack_packet`.
   */
  class ByteBuffer {
    var data: bytes

    constructor ()
      ensures data == []
    {
      data := [];
    }

    method Extend(chunk: bytes)
      modifies this
      ensures data == old(data) + chunk
    {
      data := data + chunk;
    }

    /** Removes the first packet when it is complete; raises when the header is refused. */
    method TryUnpackPacket() returns (r: Result<Option<Packet>, Fault>)
      modifies this
      ensures match TryUnpack(old(data))
              case Incomplete => r == Ok(None) && data == old(data)
              case Malformed(fault) => r == Err(fault) && data == old(data)
              case Complete(p, rest) => r == Ok(Some(p)) && data == rest && |data| + HEADER_LENGTH <= |old(data)|
    {
      if |data| < HEADER_LENGTH {
        return Ok(None);
      }
      var header :- UnpackHeader(data[..HEADER_LENGTH]);
      var packetLength := header.headerLen + header.metaLen + header.bodyLen;
      if |data| < packetLength {
        return Ok(None);
      }
      var payload := data[..packetLength];
      assert payload[..HEADER_LENGTH] == data[..HEADER_LENGTH];
      data := data[packetLength..];
      // The header was accepted, so unpacking the whole packet cannot be refused.
      var packet := UnpackPacket(payload);
      return Ok(Some(packet.value));
    }
  }
}
