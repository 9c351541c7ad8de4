/** Demultiplexing QUIC stream data into packets (src/nnrp/adapters/quic.py). */
module Quic {
  import opened Outcomes
  import opened Wire
  import opened Header
  import opened Packets
  import opened Streams
  import opened Routing

  datatype TerminalError = ProtocolError | ConnectionClosed

  /** A `StreamDataReceived` event. */
  datatype StreamData = StreamData(stream: nat, data: bytes, end: bool)

  /** The second-lowest bit of a stream id: section 2.1 of RFC 9000. */
  predicate IsUnidirectional(stream: nat) {
    (stream / 2) % 2 == 1
  }

  lemma LowBits(stream: nat)
    ensures IsUnidirectional(stream) <==> stream % 4 in {2, 3}
  {
  }

  /** The bytes that arrived on one stream. */
  function BytesOn(events: seq<StreamData>, k: nat): bytes {
    if events == [] then []
    else
      var front, last := events[..|events| - 1], events[|events| - 1];
      BytesOn(front, k) + if last.stream == k then last.data else []
  }

  /** The events of one stream. */
  function EventsOn(events: seq<StreamData>, k: nat): seq<StreamData> {
    if events == [] then []
    else
      var front, last := events[..|events| - 1], events[|events| - 1];
      EventsOn(front, k) + if last.stream == k then [last] else []
  }

  /** After its last event, the event's stream is not malformed, and holds no partial packet if it ended. */
  predicate Sound(events: seq<StreamData>)
    requires events != []
  {
    var last := events[|events| - 1];
    var parse := ParseAll(BytesOn(events, last.stream));
    !parse.failed && (last.end ==> parse.rest == [])
  }

  /** Every event left its stream sound. */
  predicate Healthy(events: seq<StreamData>) {
    events == [] || (Healthy(events[..|events| - 1]) && Sound(events))
  }

  lemma EventsOnSnoc(front: seq<StreamData>, last: StreamData, k: nat)
    ensures EventsOn(front + [last], k) == if last.stream == k then EventsOn(front, k) + [last] else EventsOn(front, k)
  {
    assert (front + [last])[..|front|] == front;
    assert EventsOn(front, k) + [] == EventsOn(front, k);
  }

  /** The bytes of a stream do not depend on how it is interleaved with others. */
  lemma {:induction false} BytesOnOwnEvents(events: seq<StreamData>, k: nat)
    ensures BytesOn(EventsOn(events, k), k) == BytesOn(events, k)
  {
    if events != [] {
      var front, last := events[..|events| - 1], events[|events| - 1];
      assert events == front + [last];
      BytesOnOwnEvents(front, k);
      EventsOnSnoc(front, last, k);
      var own := EventsOn(front, k);
      assert (own + [last])[..|own|] == own;
      assert BytesOn(own, k) + [] == BytesOn(own, k);
    }
  }

  lemma HealthySnoc(front: seq<StreamData>, last: StreamData)
    ensures Healthy(front + [last]) <==> Healthy(front) && Sound(front + [last])
  {
    assert (front + [last])[..|front|] == front;
  }

  lemma OwnHealthSnoc(front: seq<StreamData>, last: StreamData, k: nat)
    ensures Healthy(EventsOn(front + [last], k)) <==>
            Healthy(EventsOn(front, k)) && (k == last.stream ==> Sound(front + [last]))
  {
    hide ParseAll, Healthy, EventsOn, BytesOn;
    EventsOnSnoc(front, last, k);
    if k == last.stream {
      HealthySnoc(EventsOn(front, k), last);
      BytesOnOwnEvents(front + [last], k);
    }
  }

  ghost predicate EachHealthy(events: seq<StreamData>) {
    forall k: nat :: Healthy(EventsOn(events, k))
  }

  /** Whether a run fails is settled stream by stream, whatever the interleaving. */
  lemma {:induction false} HealthyPerStream(events: seq<StreamData>)
    ensures Healthy(events) <==> EachHealthy(events)
  {
    if events != [] {
      hide Healthy, EventsOn, Sound;
      var front, last := events[..|events| - 1], events[|events| - 1];
      assert events == front + [last];
      HealthyPerStream(front);
      HealthySnoc(front, last);
      OwnHealthSnoc(front, last, last.stream);
      if Healthy(events) {
        forall k: nat
          ensures Healthy(EventsOn(events, k))
        {
          OwnHealthSnoc(front, last, k);
        }
      } else if EachHealthy(events) {
        assert Healthy(EventsOn(events, last.stream));
        forall k: nat
          ensures Healthy(EventsOn(front, k))
        {
          OwnHealthSnoc(front, last, k);
          assert Healthy(EventsOn(events, k));
        }
      }
    } else {
      assert forall k: nat :: EventsOn(events, k) == [];
    }
  }

  /** A packet together with the stream it came from. */
  datatype Routed = Routed(stream: nat, packet: Packet)

  function PacketsOn(log: seq<Routed>, k: nat): seq<Packet> {
    if log == [] then []
    else
      var last := log[|log| - 1];
      PacketsOn(log[..|log| - 1], k) + if last.stream == k then [last.packet] else []
  }

  /** Control-stream packets are control traffic whatever their type; others go by type. */
  function ClassOn(control: Option<nat>, item: Routed): Class {
    if control == Some(item.stream) then Control else ClassOf(item.packet)
  }

  function QueueOf(log: seq<Routed>, control: Option<nat>, c: Class): seq<Packet> {
    if log == [] then []
    else
      var last := log[|log| - 1];
      QueueOf(log[..|log| - 1], control, c) + if ClassOn(control, last) == c then [last.packet] else []
  }

  /** The stream of the last routed packet of a class. */
  function LastStream(log: seq<Routed>, control: Option<nat>, c: Class): Option<nat> {
    if log == [] then None
    else
      var last := log[|log| - 1];
      if ClassOn(control, last) == c then Some(last.stream) else LastStream(log[..|log| - 1], control, c)
  }

  predicate AllUnidirectional(log: seq<Routed>) {
    forall item :: item in log ==> IsUnidirectional(item.stream)
  }

  /** Choosing the control stream later does not reclassify packets of unidirectional streams. */
  lemma {:induction false} ControlChosenLater(log: seq<Routed>, control: nat, c: Class)
    requires AllUnidirectional(log) && !IsUnidirectional(control)
    ensures QueueOf(log, Some(control), c) == QueueOf(log, None, c)
    ensures LastStream(log, Some(control), c) == LastStream(log, None, c)
  {
    if log != [] {
      assert log[|log| - 1] in log;
      ControlChosenLater(log[..|log| - 1], control, c);
    }
  }

  lemma Snoc(log: seq<Routed>, stream: nat, p: Packet, control: Option<nat>)
    ensures var item := Routed(stream, p);
            && (forall c: Class :: QueueOf(log + [item], control, c) ==
                                   QueueOf(log, control, c) + if ClassOn(control, item) == c then [p] else [])
            && (forall c: Class :: LastStream(log + [item], control, c) ==
                                   if ClassOn(control, item) == c then Some(stream) else LastStream(log, control, c))
            && (forall k: nat :: PacketsOn(log + [item], k) ==
                                 PacketsOn(log, k) + if k == stream then [p] else [])
  {
    var item := Routed(stream, p);
    assert (log + [item])[..|log + [item]| - 1] == log;
  }

  /** New data on a stream is read after what waits there; the other streams are as before. */
  lemma Extended(before: seq<StreamData>, e: StreamData, packets: seq<Packet>, waiting: bytes)
    ensures ParseAll(BytesOn(before, e.stream)) == Parse(packets, waiting, false) ==>
              ParseAll(BytesOn(before + [e], e.stream)) ==
              Then(Parse(packets, waiting, false), ParseAll(waiting + e.data))
    ensures forall k: nat :: k != e.stream ==> BytesOn(before + [e], k) == BytesOn(before, k)
  {
    assert (before + [e])[..|before|] == before;
    ParseSplit(BytesOn(before, e.stream), e.data);
  }

  class Connection {
    var streamBuffers: map<nat, ByteBuffer>
    var controlStreamId: Option<nat>
    var lastSubmitStreamId: Option<nat>
    var lastResultStreamId: Option<nat>
    var terminalError: Option<TerminalError>
    var controlQueue: seq<Packet>
    var submitQueue: seq<Packet>
    var resultQueue: seq<Packet>

    /** Every stream-data event handled, and every packet routed, in order. */
    ghost var events: seq<StreamData>
    ghost var log: seq<Routed>

    /** The bytes of a stream that wait for the rest of a packet. */
    function Pending(k: nat): bytes
      reads this`streamBuffers, streamBuffers.Values
    {
      if k in streamBuffers then streamBuffers[k].data else []
    }

    /** Streams do not share buffers. */
    ghost predicate Separate()
      reads this`streamBuffers
    {
      forall j, k :: j in streamBuffers && k in streamBuffers && j != k ==> streamBuffers[j] != streamBuffers[k]
    }

    /** The queues are the routed packets sorted into classes by the control stream of today. */
    ghost predicate Classified()
      reads this`log, this`controlStreamId, this`controlQueue, this`submitQueue, this`resultQueue,
            this`lastSubmitStreamId, this`lastResultStreamId
    {
      && controlQueue == QueueOf(log, controlStreamId, Control)
      && submitQueue == QueueOf(log, controlStreamId, Submit)
      && resultQueue == QueueOf(log, controlStreamId, Result)
      && lastSubmitStreamId == LastStream(log, controlStreamId, Submit)
      && lastResultStreamId == LastStream(log, controlStreamId, Result)
      && (controlStreamId.None? ==> AllUnidirectional(log))
      && (controlStreamId.Some? ==> !IsUnidirectional(controlStreamId.value))
    }

    /** What was routed from a stream, and what waits, is the reading of that stream's own bytes. */
    ghost predicate StreamsRead()
      reads this`log, this`events, this`streamBuffers, streamBuffers.Values
    {
      forall k: nat :: ParseAll(BytesOn(events, k)) == Parse(PacketsOn(log, k), Pending(k), false)
    }

    ghost predicate Valid()
      reads this, streamBuffers.Values
    {
      && Separate()
      && Classified()
      && (terminalError.None? ==> StreamsRead())
      && (terminalError.None? <==> Healthy(events))
    }

    constructor ()
      ensures Valid()
      ensures events == [] && log == [] && controlStreamId == None && terminalError == None
    {
      streamBuffers := map[];
      controlStreamId, lastSubmitStreamId, lastResultStreamId, terminalError := None, None, None, None;
      controlQueue, submitQueue, resultQueue := [], [], [];
      events, log := [], [];
      new;
      ParseEmpty();
    }

    /** The control stream is chosen once: by the first bidirectional data or by the first control send. */
    method EnsureControlStream(nextBidirectional: nat) returns (stream: nat)
      requires Valid()
      requires !IsUnidirectional(nextBidirectional)
      modifies this`controlStreamId
      ensures Valid()
      ensures controlStreamId == Some(stream)
      ensures stream == if old(controlStreamId).Some? then old(controlStreamId).value else nextBidirectional
    {
      if controlStreamId.None? {
        ControlChosenLater(log, nextBidirectional, Control);
        ControlChosenLater(log, nextBidirectional, Submit);
        ControlChosenLater(log, nextBidirectional, Result);
        controlStreamId := Some(nextBidirectional);
      }
      return controlStreamId.value;
    }

    method FailConnection(error: TerminalError)
      modifies this`terminalError
      ensures terminalError == if old(terminalError).Some? then old(terminalError) else Some(error)
    {
      if terminalError.Some? {
        return;
      }
      terminalError := Some(error);
    }

    method RoutePacket(stream: nat, p: Packet)
      requires Classified() && (controlStreamId.None? ==> IsUnidirectional(stream))
      modifies this`log, this`controlQueue, this`submitQueue, this`resultQueue,
               this`lastSubmitStreamId, this`lastResultStreamId
      ensures Classified()
      ensures log == old(log) + [Routed(stream, p)]
      ensures controlStreamId == Some(stream) ==>
                controlQueue == old(controlQueue) + [p] && submitQueue == old(submitQueue)
                && resultQueue == old(resultQueue)
      ensures controlStreamId != Some(stream) ==>
                && submitQueue == old(submitQueue) + (if p.header.msgType == 0x10 then [p] else [])
                && resultQueue == old(resultQueue) + (if p.header.msgType in {0x12, 0x13} then [p] else [])
                && controlQueue == old(controlQueue) + (if p.header.msgType in {0x10, 0x12, 0x13} then [] else [p])
      ensures lastSubmitStreamId == if controlStreamId != Some(stream) && p.header.msgType == 0x10
                                    then Some(stream) else old(lastSubmitStreamId)
      ensures lastResultStreamId == if controlStreamId != Some(stream) && p.header.msgType in {0x12, 0x13}
                                    then Some(stream) else old(lastResultStreamId)
    {
      Snoc(log, stream, p, controlStreamId);
      log := log + [Routed(stream, p)];
      hide QueueOf, LastStream;
      if controlStreamId == Some(stream) {
        controlQueue := controlQueue + [p];
      } else if p.header.msgType == FRAME_SUBMIT {
        lastSubmitStreamId := Some(stream);
        submitQueue := submitQueue + [p];
      } else if p.header.msgType == RESULT_PUSH || p.header.msgType == RESULT_DROP {
        lastResultStreamId := Some(stream);
        resultQueue := resultQueue + [p];
      } else {
        controlQueue := controlQueue + [p];
      }
    }

    /** Routes the whole packets at the front of a stream's buffer; false when a header is refused. */
    method RouteBuffered(stream: nat, buffer: ByteBuffer) returns (decoded: bool)
      requires Classified() && (controlStreamId.None? ==> IsUnidirectional(stream))
      modifies buffer, this`log, this`controlQueue, this`submitQueue, this`resultQueue,
               this`lastSubmitStreamId, this`lastResultStreamId
      ensures Classified()
      ensures PacketsOn(log, stream) == PacketsOn(old(log), stream) + ParseAll(old(buffer.data)).packets
      ensures forall k: nat :: k != stream ==> PacketsOn(log, k) == PacketsOn(old(log), k)
      ensures buffer.data == ParseAll(old(buffer.data)).rest
      ensures decoded == !ParseAll(old(buffer.data)).failed
    {
      hide Classified, TryUnpack, Sendable, Encoded, PacketsOn;
      ghost var packets: seq<Packet> := [];
      while true
        invariant Classified()
        invariant PacketsOn(log, stream) == PacketsOn(old(log), stream) + packets
        invariant forall k: nat :: k != stream ==> PacketsOn(log, k) == PacketsOn(old(log), k)
        invariant ParseAll(old(buffer.data)) == Then(Parse(packets, [], false), ParseAll(buffer.data))
        decreases |buffer.data|
      {
        var attempt := buffer.TryUnpackPacket();
        if attempt.Err? {
          return false;
        }
        if attempt.value.None? {
          return true;
        }
        var packet := attempt.value.value;
        Snoc(log, stream, packet, controlStreamId);
        RoutePacket(stream, packet);
        assert packets + ([packet] + ParseAll(buffer.data).packets)
            == (packets + [packet]) + ParseAll(buffer.data).packets;
        packets := packets + [packet];
      }
    }

    /** The buffer of a stream, created on its first data. */
    method BufferOf(stream: nat) returns (buffer: ByteBuffer)
      requires Separate()
      modifies this`streamBuffers
      ensures Separate()
      ensures stream in streamBuffers && streamBuffers[stream] == buffer
      ensures buffer in old(streamBuffers.Values) || fresh(buffer)
      ensures forall k :: k in streamBuffers ==>
                streamBuffers[k] == buffer || (k in old(streamBuffers) && streamBuffers[k] == old(streamBuffers)[k])
      ensures forall k: nat :: Pending(k) == old(Pending(k))
      ensures streamBuffers.Keys == old(streamBuffers.Keys) + {stream}
      ensures forall k :: k in old(streamBuffers) ==> streamBuffers[k] == old(streamBuffers)[k]
    {
      if stream in streamBuffers {
        buffer := streamBuffers[stream];
      } else {
        buffer := new ByteBuffer();
        assert forall k :: k in streamBuffers ==> streamBuffers[k] in streamBuffers.Values;
        streamBuffers := streamBuffers[stream := buffer];
      }
    }

    /**
     Handles one event.  As long as the run is healthy, each stream's routed
     packets are the reading of its own bytes; the first unsound event sets
     the terminal error, which never changes again, nor does the control stream.
     */
    method HandleStreamData(e: StreamData)
      requires Valid()
      modifies this, streamBuffers.Values
      ensures Valid()
      ensures events == old(events) + [e]
      ensures fresh(streamBuffers.Values - old(streamBuffers.Values))
      ensures controlStreamId == if old(controlStreamId).None? && e.stream % 4 in {0, 1}
                                 then Some(e.stream) else old(controlStreamId)
      ensures old(terminalError).Some? ==> terminalError == old(terminalError)
      ensures old(terminalError).None? ==>
                && terminalError in {None, Some(ProtocolError)}
                && var parse := ParseAll(BytesOn(events, e.stream));
                (terminalError.Some? <==> parse.failed || (e.end && parse.rest != []))
    {
      hide ParseAll, Classified, BytesOn, PacketsOn, Healthy, IsUnidirectional, Separate, Pending;
      LowBits(e.stream);
      if controlStreamId.None? && !IsUnidirectional(e.stream) {
        ChooseControl(e.stream);
      }
      HealthySnoc(events, e);
      var buffer := BufferOf(e.stream);
      var decoded := Absorb(e, buffer);
      if !decoded {
        DropBuffer(e.stream);
        FailConnection(ProtocolError);
        return;
      }
      if !e.end {
        return;
      }
      var waiting := buffer.data;
      DropBuffer(e.stream);
      if waiting != [] {
        FailConnection(ProtocolError);
      }
    }

    /** Forgets the buffer of a stream; the other streams keep theirs. */
    method DropBuffer(stream: nat)
      requires Separate()
      modifies this`streamBuffers
      ensures Separate()
      ensures streamBuffers == old(streamBuffers) - {stream}
      ensures streamBuffers.Values <= old(streamBuffers.Values)
      ensures forall k: nat :: Pending(k) == if k == stream then [] else old(Pending(k))
    {
      streamBuffers := streamBuffers - {stream};
    }

    /** Adds the event's data to its stream's buffer and routes what is whole. */
    method Absorb(e: StreamData, buffer: ByteBuffer) returns (decoded: bool)
      requires Separate() && Classified() && (controlStreamId.None? ==> IsUnidirectional(e.stream))
      requires e.stream in streamBuffers && streamBuffers[e.stream] == buffer
      modifies buffer, this`events, this`log, this`controlQueue, this`submitQueue, this`resultQueue,
               this`lastSubmitStreamId, this`lastResultStreamId
      ensures Classified()
      ensures events == old(events) + [e]
      ensures old(StreamsRead()) ==>
                decoded == !ParseAll(BytesOn(events, e.stream)).failed
      ensures old(StreamsRead()) && decoded ==>
                StreamsRead() && buffer.data == ParseAll(BytesOn(events, e.stream)).rest
    {
      hide ParseAll, Classified, BytesOn, PacketsOn;
      ghost var packets, waiting := PacketsOn(log, e.stream), buffer.data;
      Extended(events, e, packets, waiting);
      assert old(StreamsRead()) ==> ParseAll(BytesOn(events, e.stream)) == Parse(packets, Pending(e.stream), false);
      buffer.Extend(e.data);
      events := events + [e];
      decoded := RouteBuffered(e.stream, buffer);
      if old(StreamsRead()) && decoded {
        forall k: nat
          ensures ParseAll(BytesOn(events, k)) == Parse(PacketsOn(log, k), Pending(k), false)
        {
          if k != e.stream {
            assert Pending(k) == old(Pending(k));
            assert ParseAll(BytesOn(old(events), k)) == Parse(PacketsOn(old(log), k), old(Pending(k)), false);
          }
        }
      }
    }

    method ChooseControl(stream: nat)
      requires Classified() && controlStreamId.None? && !IsUnidirectional(stream)
      modifies this`controlStreamId
      ensures Classified() && controlStreamId == Some(stream)
    {
      ControlChosenLater(log, stream, Control);
      ControlChosenLater(log, stream, Submit);
      ControlChosenLater(log, stream, Result);
      controlStreamId := Some(stream);
    }
  }
}
