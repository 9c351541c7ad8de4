/** The ordered TCP connection (src/nnrp/adapters/tcp.py). */
module Tcp {
  import opened Outcomes
  import opened Wire
  import opened Header
  import opened Packets
  import opened Streams
  import opened Routing

  /** The kinds of `NnrpTcpError` a connection can end with. */
  datatype TerminalError = ProtocolError | ConnectionClosed

  /** How the reads after the last chunk end: end of file, the idle timeout, or any other exception. */
  datatype Ending = Eof | IdleTimeout | ReadFault

  /** The terminal error of a reader that saw `input` and then `ending`. */
  function ReaderVerdict(input: bytes, ending: Ending): TerminalError {
    var parse := ParseAll(input);
    if parse.failed then ProtocolError
    else
      match ending
      case Eof => if parse.rest == [] then ConnectionClosed else ProtocolError
      case IdleTimeout => ConnectionClosed
      case ReadFault => ProtocolError
  }

  /** Why a send or a receive raises. */
  datatype Failure = Terminal(error: TerminalError) | WrongType | Unpackable | TimedOut

  /** One send call on a connection, and whether its packet reached the writer. */
  datatype Send = Send(call: Class, packet: Packet, written: bool)

  /** The packets of a run of sends that reached the writer. */
  function Written(sends: seq<Send>): seq<Packet> {
    if sends == [] then []
    else
      var last := sends[|sends| - 1];
      Written(sends[..|sends| - 1]) + if last.written then [last.packet] else []
  }

  /** How often the call of one class was made: each one takes a synthetic stream id. */
  function Calls(sends: seq<Send>, c: Class): nat {
    if sends == [] then 0
    else Calls(sends[..|sends| - 1], c) + if sends[|sends| - 1].call == c then 1 else 0
  }

  /** The id the sender took for each written packet of class `c`; None when it went through another call. */
  function SenderIds(sends: seq<Send>, c: Class): seq<Option<nat>> {
    if sends == [] then []
    else
      var front, last := sends[..|sends| - 1], sends[|sends| - 1];
      SenderIds(front, c) +
      if !last.written || ClassOf(last.packet) != c then []
      else if last.call == c then [Some(2 + 4 * Calls(front, c))] else [None]
  }

  /** The id the receiver gives the k-th packet of a class. */
  function ReceiverId(k: nat): nat {
    2 + 4 * k
  }

  /** Each class call only takes packets of its class; a control call takes any packet. */
  predicate WellTyped(sends: seq<Send>) {
    forall s :: s in sends && s.call != Control ==> ClassOf(s.packet) == s.call
  }

  /**
   Every written packet of class `c` went through the call for `c`, and no
   earlier call for `c` was refused after it had taken its id.
   */
  predicate Orderly(sends: seq<Send>, c: Class) {
    forall j :: 0 <= j < |sends| && sends[j].written && ClassOf(sends[j].packet) == c ==>
      sends[j].call == c && NoRefusal(sends[..j], c)
  }

  predicate NoRefusal(sends: seq<Send>, c: Class) {
    forall s :: s in sends && s.call == c ==> s.written
  }

  lemma {:induction false} SenderIdsCount(sends: seq<Send>, c: Class)
    ensures |SenderIds(sends, c)| == |OfClass(Written(sends), c)|
  {
    if sends != [] {
      var front, last := sends[..|sends| - 1], sends[|sends| - 1];
      SenderIdsCount(front, c);
      OfClassAppend(Written(front), if last.written then [last.packet] else [], c);
    }
  }

  /** Calls run ahead of written packets by at least the calls that were refused. */
  lemma {:induction false} CallsAhead(sends: seq<Send>, c: Class)
    requires WellTyped(sends) && c != Control
    requires forall s :: s in sends && Contributes(s, c) ==> s.call == c
    ensures |SenderIds(sends, c)| <= Calls(sends, c)
    ensures |SenderIds(sends, c)| == Calls(sends, c) <==> NoRefusal(sends, c)
  {
    if sends != [] {
      var front, last := sends[..|sends| - 1], sends[|sends| - 1];
      assert sends == front + [last];
      CallsAhead(front, c);
    }
  }

  /** The packet of the last send is one of class `c` that reached the writer. */
  predicate Contributes(s: Send, c: Class) {
    s.written && ClassOf(s.packet) == c
  }

  lemma OrderlySnoc(front: seq<Send>, last: Send, c: Class)
    ensures Orderly(front + [last], c) <==>
            Orderly(front, c) && (Contributes(last, c) ==> last.call == c && NoRefusal(front, c))
  {
    hide ClassOf, NoRefusal;
    var sends := front + [last];
    assert sends[..|front|] == front;
    assert forall j :: 0 <= j < |front| ==> sends[j] == front[j] && sends[..j] == front[..j];
    if Orderly(sends, c) {
      forall j | 0 <= j < |front| && front[j].written && ClassOf(front[j].packet) == c
        ensures front[j].call == c && NoRefusal(front[..j], c)
      {
        assert sends[j] == front[j];
      }
    }
  }

  predicate Agree(ids: seq<Option<nat>>) {
    forall k :: 0 <= k < |ids| ==> ids[k] == Some(ReceiverId(k))
  }

  lemma AgreeSnoc(ids: seq<Option<nat>>, id: Option<nat>)
    ensures Agree(ids + [id]) <==> Agree(ids) && id == Some(ReceiverId(|ids|))
  {
    var all := ids + [id];
    if Agree(all) {
      assert all[|ids|] == id;
      assert forall k :: 0 <= k < |ids| ==> ids[k] == all[k];
    }
  }

  lemma SenderIdsNext(front: seq<Send>, last: Send, c: Class)
    ensures SenderIds(front + [last], c) ==
            if !Contributes(last, c) then SenderIds(front, c)
            else SenderIds(front, c) + [if last.call == c then Some(2 + 4 * Calls(front, c)) else None]
  {
    hide ClassOf;
    assert (front + [last])[..|front|] == front;
    assert SenderIds(front, c) + [] == SenderIds(front, c);
  }

  /** In an orderly run the next id agrees exactly when it is taken by the right call and none was taken in vain. */
  lemma NextIdAgrees(front: seq<Send>, last: Send, c: Class)
    requires WellTyped(front) && c != Control && Orderly(front, c)
    ensures (if last.call == c then Some(2 + 4 * Calls(front, c)) else None) == Some(ReceiverId(|SenderIds(front, c)|))
            <==> last.call == c && NoRefusal(front, c)
  {
    hide ClassOf, NoRefusal, SenderIds, Calls;
    forall s | s in front && Contributes(s, c)
      ensures s.call == c
    {
      var j :| 0 <= j < |front| && front[j] == s;
      assert front[j].written && ClassOf(front[j].packet) == c;
    }
    CallsAhead(front, c);
  }

  /**
   The k-th packet of a class carries the same synthetic id on both sides
   exactly when the sender was orderly: one refused send (a packet whose
   lengths disagree with its header) shifts every later id.
   */
  lemma {:induction false} IdsAgree(sends: seq<Send>, c: Class)
    requires WellTyped(sends) && c != Control
    ensures Agree(SenderIds(sends, c)) <==> Orderly(sends, c)
  {
    if sends != [] {
      var front, last := sends[..|sends| - 1], sends[|sends| - 1];
      assert sends == front + [last];
      assert WellTyped(front);
      hide ClassOf, NoRefusal, Agree, Orderly, SenderIds, WellTyped;
      IdsAgree(front, c);
      OrderlySnoc(front, last, c);
      SenderIdsNext(front, last, c);
      if Contributes(last, c) {
        AgreeSnoc(SenderIds(front, c), if last.call == c then Some(2 + 4 * Calls(front, c)) else None);
        if Orderly(front, c) {
          NextIdAgrees(front, last, c);
        }
      }
    }
  }

  /** Once a call of a class was refused, every later packet of it gets a higher id than the receiver gives it. */
  lemma {:induction false} RefusalShiftsLaterIds(early: seq<Send>, later: seq<Send>, c: Class)
    requires WellTyped(early + later) && c != Control && !NoRefusal(early, c)
    requires forall s :: s in early + later && Contributes(s, c) ==> s.call == c
    ensures SenderIds(early, c) <= SenderIds(early + later, c)
    ensures forall k :: |SenderIds(early, c)| <= k < |SenderIds(early + later, c)| ==>
              && SenderIds(early + later, c)[k].Some?
              && SenderIds(early + later, c)[k].value > ReceiverId(k)
  {
    hide ClassOf, SenderIds, Calls;
    if later == [] {
      assert early + later == early;
    } else {
      var front, last := later[..|later| - 1], later[|later| - 1];
      assert early + later == early + front + [last];
      RefusalShiftsLaterIds(early, front, c);
      SenderIdsNext(early + front, last, c);
      CallsAhead(early + front, c);
      assert !NoRefusal(early + front, c);
    }
  }

  /** The ids of a run in which one submit was refused and the next one written. */
  lemma RefusedSubmitShiftsIds(bad: Packet, good: Packet)
    requires ClassOf(bad) == Submit && ClassOf(good) == Submit
    ensures SenderIds([Send(Submit, bad, false), Send(Submit, good, true)], Submit) == [Some(ReceiverId(1))]
  {
    var sends := [Send(Submit, bad, false), Send(Submit, good, true)];
    assert sends[..1] == [sends[0]];
    assert Calls(sends[..1], Submit) == Calls([], Submit) + 1;
    assert SenderIds(sends[..1], Submit) == SenderIds([], Submit) + [];
  }

  /**
   Whatever part of the sender's bytes has arrived, in whatever chunks, what
   the receiver has routed to a class is a prefix of what the sender wrote in
   that class, and the reader has not failed.
   */
  lemma PeerOrder(sends: seq<Send>, arrived: bytes, c: Class)
    requires AllSendable(Written(sends))
    requires arrived <= Stream(Written(sends))
    ensures !ParseAll(arrived).failed
    ensures OfClass(ParseAll(arrived).packets, c) <= OfClass(Written(sends), c)
  {
    ParsePrefixOfStream(Written(sends), arrived);
    OfClassPrefix(ParseAll(arrived).packets, Written(sends), c);
  }

  /** The queue of a class: its routed packets after the first `taken`. */
  predicate Holds(queue: seq<Packet>, routed: seq<Packet>, taken: nat, c: Class) {
    taken <= |OfClass(routed, c)| && queue == OfClass(routed, c)[taken..]
  }

  lemma HoldsSnoc(queue: seq<Packet>, routed: seq<Packet>, taken: nat, c: Class, p: Packet)
    requires Holds(queue, routed, taken, c)
    ensures ClassOf(p) == c ==> Holds(queue + [p], routed + [p], taken, c)
    ensures ClassOf(p) != c ==> Holds(queue, routed + [p], taken, c)
    ensures |OfClass(routed + [p], c)| == |OfClass(routed, c)| + if ClassOf(p) == c then 1 else 0
  {
    hide ClassOf;
    assert (routed + [p])[..|routed|] == routed;
  }

  /** The id of the last routed packet of a class. */
  function LastId(routed: seq<Packet>, c: Class): Option<nat> {
    var k := |OfClass(routed, c)|;
    if k == 0 then None else Some(ReceiverId(k - 1))
  }

  class Connection {
    var controlQueue: seq<Packet>
    var submitQueue: seq<Packet>
    var resultQueue: seq<Packet>
    var terminalError: Option<TerminalError>
    var lastSubmitStreamId: Option<nat>
    var lastResultStreamId: Option<nat>
    var nextOutgoingSubmitStreamId: nat
    var nextIncomingSubmitStreamId: nat
    var nextOutgoingResultStreamId: nat
    var nextIncomingResultStreamId: nat
    /** The bytes handed to the stream writer. */
    var written: bytes

    /** Every send call made on this connection. */
    ghost var sends: seq<Send>
    /** Every packet routed, in order, and how many of each class were received since. */
    ghost var routed: seq<Packet>
    ghost var taken: map<Class, nat>

    function Queue(c: Class): seq<Packet>
      reads this
    {
      match c
      case Control => controlQueue
      case Submit => submitQueue
      case Result => resultQueue
    }

    /** The bytes written and the ids taken are those of the sends made. */
    ghost predicate SendSide()
      reads this`sends, this`written, this`nextOutgoingSubmitStreamId, this`nextOutgoingResultStreamId
    {
      && WellTyped(sends)
      && AllSendable(Written(sends))
      && written == Stream(Written(sends))
      && nextOutgoingSubmitStreamId == ReceiverId(Calls(sends, Submit))
      && nextOutgoingResultStreamId == ReceiverId(Calls(sends, Result))
    }

    /** The queues hold the routed packets not yet taken, and the ids are those of the packets routed. */
    ghost predicate ReceiveSide()
      reads this`routed, this`taken, this`controlQueue, this`submitQueue, this`resultQueue,
            this`nextIncomingSubmitStreamId, this`nextIncomingResultStreamId,
            this`lastSubmitStreamId, this`lastResultStreamId
    {
      && taken.Keys == {Control, Submit, Result}
      && Holds(controlQueue, routed, taken[Control], Control)
      && Holds(submitQueue, routed, taken[Submit], Submit)
      && Holds(resultQueue, routed, taken[Result], Result)
      && nextIncomingSubmitStreamId == ReceiverId(|OfClass(routed, Submit)|)
      && nextIncomingResultStreamId == ReceiverId(|OfClass(routed, Result)|)
      && lastSubmitStreamId == LastId(routed, Submit)
      && lastResultStreamId == LastId(routed, Result)
    }

    ghost predicate Valid()
      reads this
    {
      SendSide() && ReceiveSide()
    }

    constructor ()
      ensures Valid()
      ensures routed == [] && sends == [] && written == [] && terminalError == None
      ensures taken == map[Control := 0, Submit := 0, Result := 0]
      ensures nextOutgoingSubmitStreamId == nextIncomingSubmitStreamId == 2
      ensures nextOutgoingResultStreamId == nextIncomingResultStreamId == 2
    {
      controlQueue, submitQueue, resultQueue := [], [], [];
      terminalError, lastSubmitStreamId, lastResultStreamId := None, None, None;
      nextOutgoingSubmitStreamId, nextIncomingSubmitStreamId := 2, 2;
      nextOutgoingResultStreamId, nextIncomingResultStreamId := 2, 2;
      written := [];
      sends, routed, taken := [], [], map[Control := 0, Submit := 0, Result := 0];
    }

    /** Only the first terminal error is kept. */
    method FailConnection(error: TerminalError)
      modifies this`terminalError
      ensures terminalError == if old(terminalError).Some? then old(terminalError) else Some(error)
    {
      if terminalError.Some? {
        return;
      }
      terminalError := Some(error);
    }

    method RoutePacket(p: Packet)
      requires Valid()
      modifies this`controlQueue, this`submitQueue, this`resultQueue, this`routed,
               this`lastSubmitStreamId, this`lastResultStreamId,
               this`nextIncomingSubmitStreamId, this`nextIncomingResultStreamId
      ensures Valid()
      ensures routed == old(routed) + [p]
      ensures submitQueue == old(submitQueue) + (if p.header.msgType == 0x10 then [p] else [])
      ensures resultQueue == old(resultQueue) + (if p.header.msgType in {0x12, 0x13} then [p] else [])
      ensures controlQueue == old(controlQueue) + (if p.header.msgType in {0x10, 0x12, 0x13} then [] else [p])
      ensures p.header.msgType == 0x10 ==> lastSubmitStreamId == Some(old(nextIncomingSubmitStreamId))
      ensures nextIncomingSubmitStreamId ==
              old(nextIncomingSubmitStreamId) + if p.header.msgType == 0x10 then 4 else 0
      ensures p.header.msgType in {0x12, 0x13} ==> lastResultStreamId == Some(old(nextIncomingResultStreamId))
      ensures nextIncomingResultStreamId ==
              old(nextIncomingResultStreamId) + if p.header.msgType in {0x12, 0x13} then 4 else 0
    {
      hide SendSide, OfClass, Holds;
      HoldsSnoc(controlQueue, routed, taken[Control], Control, p);
      HoldsSnoc(submitQueue, routed, taken[Submit], Submit, p);
      HoldsSnoc(resultQueue, routed, taken[Result], Result, p);
      routed := routed + [p];
      if p.header.msgType == FRAME_SUBMIT {
        lastSubmitStreamId := Some(nextIncomingSubmitStreamId);
        nextIncomingSubmitStreamId := nextIncomingSubmitStreamId + 4;
        submitQueue := submitQueue + [p];
      } else if p.header.msgType == RESULT_PUSH || p.header.msgType == RESULT_DROP {
        lastResultStreamId := Some(nextIncomingResultStreamId);
        nextIncomingResultStreamId := nextIncomingResultStreamId + 4;
        resultQueue := resultQueue + [p];
      } else {
        controlQueue := controlQueue + [p];
      }
    }

    /** Routes the whole packets at the front of a buffer; false when the next header is refused. */
    method RouteBuffered(buffer: ByteBuffer) returns (decoded: bool)
      requires Valid()
      modifies buffer, this`controlQueue, this`submitQueue, this`resultQueue, this`routed,
               this`lastSubmitStreamId, this`lastResultStreamId,
               this`nextIncomingSubmitStreamId, this`nextIncomingResultStreamId
      ensures Valid()
      ensures routed == old(routed) + ParseAll(old(buffer.data)).packets
      ensures buffer.data == ParseAll(old(buffer.data)).rest
      ensures decoded == !ParseAll(old(buffer.data)).failed
    {
      hide SendSide, ReceiveSide, TryUnpack, Sendable, Encoded;
      ghost var packets: seq<Packet> := [];
      while true
        invariant Valid()
        invariant routed == old(routed) + packets
        invariant ParseAll(old(buffer.data)) == Then(Parse(packets, [], false), ParseAll(buffer.data))
        decreases |buffer.data|
      {
        var attempt := buffer.TryUnpackPacket();
        if attempt.Err? {
          return false;
        }
        if attempt.value.None? {
          return true;
        }
        var packet := attempt.value.value;
        RoutePacket(packet);
        assert packets + ([packet] + ParseAll(buffer.data).packets)
            == (packets + [packet]) + ParseAll(buffer.data).packets;
        packets := packets + [packet];
      }
    }

    /**
     The reader task: extends its buffer chunk by chunk and routes each packet
     as soon as it is whole.  What it routes and how it ends depend on the
     concatenated bytes and the ending alone, not on the chunks.
     */
    method ReadPackets(chunks: seq<bytes>, ending: Ending)
      requires Valid()
      requires forall chunk :: chunk in chunks ==> chunk != []
      modifies this
      ensures Valid()
      ensures sends == old(sends) && taken == old(taken)
      ensures routed == old(routed) + ParseAll(Concat(chunks)).packets
      ensures terminalError ==
              if old(terminalError).Some? then old(terminalError) else Some(ReaderVerdict(Concat(chunks), ending))
      ensures old(terminalError).None? ==>
                (terminalError == Some(ConnectionClosed) <==>
                   && !ParseAll(Concat(chunks)).failed && ending != ReadFault
                   && (ending == Eof ==> ParseAll(Concat(chunks)).rest == []))
    {
      hide Sendable, Encoded, TryUnpack, ParseAll, SendSide, ReceiveSide;
      ParseEmpty();
      var buffer := new ByteBuffer();
      var i := 0;
      while i < |chunks|
        invariant 0 <= i <= |chunks|
        invariant Valid() && fresh(buffer)
        invariant sends == old(sends) && taken == old(taken) && terminalError == old(terminalError)
        invariant routed == old(routed) + ParseAll(Concat(chunks[..i])).packets
        invariant buffer.data == ParseAll(Concat(chunks[..i])).rest && !ParseAll(Concat(chunks[..i])).failed
      {
        assert chunks[..i + 1][..i] == chunks[..i];
        ParseSplit(Concat(chunks[..i]), chunks[i]);
        buffer.Extend(chunks[i]);
        i := i + 1;
        var decoded := RouteBuffered(buffer);
        if !decoded {
          RestFails(Concat(chunks[..i]), chunks, i);
          FailConnection(ProtocolError);
          return;
        }
      }
      assert chunks[..i] == chunks;
      match ending {
        case IdleTimeout => FailConnection(ConnectionClosed);
        case ReadFault => FailConnection(ProtocolError);
        case Eof =>
          if buffer.data != [] {
            FailConnection(ProtocolError);
          } else {
            FailConnection(ConnectionClosed);
          }
      }
    }

    method SendPacket(p: Packet, drained: bool) returns (r: Result<(), Failure>)
      modifies this`written, this`terminalError
      ensures old(terminalError).Some? ==> r == Err(Terminal(old(terminalError).value))
      ensures old(terminalError).None? && !Sendable(p) ==> r == Err(Unpackable)
      ensures old(terminalError).None? && Sendable(p) ==>
                && written == old(written) + Encoded(p)
                && r == if drained then Ok(()) else Err(Terminal(ConnectionClosed))
      ensures old(terminalError).Some? || !Sendable(p) ==> written == old(written)
      ensures terminalError == if old(terminalError).None? && Sendable(p) && !drained
                               then Some(ConnectionClosed) else old(terminalError)
    {
      PacketRoundTrip(p);
      if terminalError.Some? {
        return Err(Terminal(terminalError.value));
      }
      var packed := PackPacket(p);
      if packed.Err? {
        return Err(Unpackable);
      }
      written := written + packed.value;
      if !drained {
        FailConnection(ConnectionClosed);
        return Err(Terminal(ConnectionClosed));
      }
      return Ok(());
    }

    /** Records a send call for the proofs, once its bytes are with the writer. */
    ghost method Record(call: Class, p: Packet, accepted: bool, before: bytes)
      requires WellTyped(sends) && (call != Control ==> ClassOf(p) == call)
      requires AllSendable(Written(sends)) && before == Stream(Written(sends))
      requires accepted ==> Sendable(p)
      requires written == if accepted then before + Encoded(p) else before
      modifies this`sends
      ensures sends == old(sends) + [Send(call, p, accepted)]
      ensures WellTyped(sends) && AllSendable(Written(sends)) && written == Stream(Written(sends))
      ensures forall c: Class :: Calls(sends, c) == Calls(old(sends), c) + if call == c then 1 else 0
      ensures forall c: Class :: accepted && call == ClassOf(p) == c ==>
                SenderIds(sends, c) == SenderIds(old(sends), c) + [Some(ReceiverId(Calls(old(sends), c)))]
    {
      hide Sendable, Encoded, ClassOf;
      sends := sends + [Send(call, p, accepted)];
      assert sends[..|sends| - 1] == old(sends);
      StreamSnoc(Written(old(sends)), p);
    }

    method SendControlPacket(p: Packet, drained: bool) returns (r: Result<(), Failure>)
      requires Valid()
      modifies this`written, this`terminalError, this`sends
      ensures Valid()
      ensures sends == old(sends) + [Send(Control, p, old(terminalError).None? && Sendable(p))]
      ensures r.Ok? <==> old(terminalError).None? && Sendable(p) && drained
      ensures terminalError == if old(terminalError).None? && Sendable(p) && !drained
                               then Some(ConnectionClosed) else old(terminalError)
    {
      hide Sendable, Encoded, ReceiveSide, Stream, Written, WellTyped, AllSendable, Calls, SenderIds;
      ghost var accepted := terminalError.None? && Sendable(p);
      r := SendPacket(p, drained);
      Record(Control, p, accepted, old(written));
    }

    /** Takes a synthetic stream id before the packet is packed, so a refused packet still costs an id. */
    method SendSubmitPacket(p: Packet, drained: bool) returns (r: Result<nat, Failure>)
      requires Valid()
      modifies this`written, this`terminalError, this`sends, this`nextOutgoingSubmitStreamId
      ensures Valid()
      ensures ClassOf(p) != Submit ==> r == Err(WrongType) && sends == old(sends)
      ensures ClassOf(p) == Submit ==>
                sends == old(sends) + [Send(Submit, p, old(terminalError).None? && Sendable(p))]
      ensures r == Err(WrongType) <==> p.header.msgType != 0x10
      ensures r.Ok? <==> p.header.msgType == 0x10 && old(terminalError).None? && Sendable(p) && drained
      ensures r.Ok? ==> r.value == old(nextOutgoingSubmitStreamId)
      ensures nextOutgoingSubmitStreamId ==
              old(nextOutgoingSubmitStreamId) + if p.header.msgType == 0x10 then 4 else 0
      ensures r.Ok? ==> SenderIds(sends, Submit) == SenderIds(old(sends), Submit) + [Some(r.value)]
      ensures terminalError == if ClassOf(p) == Submit && old(terminalError).None? && Sendable(p) && !drained
                               then Some(ConnectionClosed) else old(terminalError)
    {
      hide Sendable, Encoded, ReceiveSide, Stream, Written, WellTyped, AllSendable, Calls, SenderIds;
      if p.header.msgType != FRAME_SUBMIT {
        return Err(WrongType);
      }
      assert ClassOf(p) == Submit;
      hide ClassOf;
      ghost var accepted := terminalError.None? && Sendable(p);
      var streamId := nextOutgoingSubmitStreamId;
      nextOutgoingSubmitStreamId := nextOutgoingSubmitStreamId + 4;
      var sent := SendPacket(p, drained);
      Record(Submit, p, accepted, old(written));
      if sent.Err? {
        return Err(sent.error);
      }
      return Ok(streamId);
    }

    method SendResultPacket(p: Packet, drained: bool) returns (r: Result<nat, Failure>)
      requires Valid()
      modifies this`written, this`terminalError, this`sends, this`nextOutgoingResultStreamId
      ensures Valid()
      ensures ClassOf(p) != Result ==> r == Err(WrongType) && sends == old(sends)
      ensures ClassOf(p) == Result ==>
                sends == old(sends) + [Send(Result, p, old(terminalError).None? && Sendable(p))]
      ensures r == Err(WrongType) <==> p.header.msgType !in {0x12, 0x13}
      ensures r.Ok? <==> p.header.msgType in {0x12, 0x13} && old(terminalError).None? && Sendable(p) && drained
      ensures r.Ok? ==> r.value == old(nextOutgoingResultStreamId)
      ensures nextOutgoingResultStreamId ==
              old(nextOutgoingResultStreamId) + if p.header.msgType in {0x12, 0x13} then 4 else 0
      ensures r.Ok? ==> SenderIds(sends, Result) == SenderIds(old(sends), Result) + [Some(r.value)]
      ensures terminalError == if ClassOf(p) == Result && old(terminalError).None? && Sendable(p) && !drained
                               then Some(ConnectionClosed) else old(terminalError)
    {
      hide Sendable, Encoded, ReceiveSide, Stream, Written, WellTyped, AllSendable, Calls, SenderIds;
      if p.header.msgType != RESULT_PUSH && p.header.msgType != RESULT_DROP {
        return Err(WrongType);
      }
      assert ClassOf(p) == Result;
      hide ClassOf;
      ghost var accepted := terminalError.None? && Sendable(p);
      var streamId := nextOutgoingResultStreamId;
      nextOutgoingResultStreamId := nextOutgoingResultStreamId + 4;
      var sent := SendPacket(p, drained);
      Record(Result, p, accepted, old(written));
      if sent.Err? {
        return Err(sent.error);
      }
      return Ok(streamId);
    }

    /**
     The next packet of a class: always the one after those already taken.
     A terminal error hides packets that are still queued.
     */
    method Receive(c: Class) returns (r: Result<Packet, Failure>)
      requires Valid()
      requires c in taken
      modifies this`controlQueue, this`submitQueue, this`resultQueue, this`taken
      ensures Valid() && c in taken
      ensures terminalError.Some? ==> r == Err(Terminal(terminalError.value))
      ensures terminalError.None? && old(taken[c]) == |OfClass(routed, c)| ==> r == Err(TimedOut)
      ensures terminalError.None? && old(taken[c]) < |OfClass(routed, c)| ==>
                r == Ok(OfClass(routed, c)[old(taken[c])]) && taken == old(taken)[c := old(taken[c]) + 1]
      ensures r.Err? ==> taken == old(taken)
    {
      hide OfClass, SendSide, LastId;
      if terminalError.Some? {
        return Err(Terminal(terminalError.value));
      }
      var queue := Queue(c);
      if queue == [] {
        return Err(TimedOut);
      }
      match c {
        case Control => controlQueue := queue[1..];
        case Submit => submitQueue := queue[1..];
        case Result => resultQueue := queue[1..];
      }
      taken := taken[c := taken[c] + 1];
      return Ok(queue[0]);
    }
  }

  // ---------------------------------------------------------------------
  // Runs in which a promise is not kept
  // ---------------------------------------------------------------------

  /** On a live connection, a submit refused for its lengths takes the id that the peer gives to the next one. */
  method RefusedSubmitRun(bad: Packet, good: Packet) returns (c: Connection, id: nat)
    requires ClassOf(bad) == ClassOf(good) == Submit && !Sendable(bad) && Sendable(good)
    ensures c.Valid() && c.terminalError.None?
    ensures c.sends == [Send(Submit, bad, false), Send(Submit, good, true)]
    ensures id == ReceiverId(1) && SenderIds(c.sends, Submit) == [Some(id)]
    ensures OfClass(ParseAll(c.written).packets, Submit) == [good]
  {
    hide Encoded, Sendable, ClassOf, ParseAll, TryUnpack, OfClass, SenderIds, Calls, Written, Stream;
    c := new Connection();
    ClassByType(bad);
    ClassByType(good);
    var refused := c.SendSubmitPacket(bad, true);
    assert c.sends == [Send(Submit, bad, false)];
    var sent := c.SendSubmitPacket(good, true);
    assert c.sends == [Send(Submit, bad, false), Send(Submit, good, true)];
    id := sent.value;
    RefusedSubmitShiftsIds(bad, good);
    assert SenderIds(c.sends, Submit)[|SenderIds(c.sends, Submit)| - 1] == Some(id);
    OneRead(good);
    WrittenOne(bad, good);
  }

  lemma WrittenOne(bad: Packet, good: Packet)
    requires Sendable(good)
    ensures var w := Written([Send(Submit, bad, false), Send(Submit, good, true)]);
            AllSendable(w) && Stream(w) == Encoded(good)
  {
    hide Encoded;
    var sends := [Send(Submit, bad, false), Send(Submit, good, true)];
    assert sends[..1] == [sends[0]] && sends[..1][..0] == [];
    assert Written(sends[..1]) == [];
    assert Written(sends) == [good];
    assert Stream([good]) == Encoded(good) + Stream([]);
  }

  /** One packet and nothing else is read as that packet. */
  lemma OneRead(p: Packet)
    requires Sendable(p)
    ensures ParseAll(Encoded(p)) == Parse([p], [], false)
    ensures OfClass([p], ClassOf(p)) == [p]
  {
    hide Encoded, Sendable, ClassOf;
    ParseUnique([p], []);
    assert Stream([p]) == Encoded(p) + Stream([]);
    assert Stream([p]) + [] == Encoded(p);
    assert [p][..0] == [];
  }

  /** A submit without metadata and body, and one whose header promises a byte of metadata that is not there. */
  const EMPTY_SUBMIT := Packet(PacketHeader(1, 0, FRAME_SUBMIT, 0, 0, 0, 0, 0, 0, 0, 0, HEADER_LENGTH), [], [])
  const CUT_SUBMIT := Packet(PacketHeader(1, 0, FRAME_SUBMIT, 0, 1, 0, 0, 0, 0, 0, 0, HEADER_LENGTH), [], [])

  /** Such packets exist, so the run above can happen. */
  lemma RefusableSubmits()
    ensures ClassOf(CUT_SUBMIT) == ClassOf(EMPTY_SUBMIT) == Submit
    ensures !Sendable(CUT_SUBMIT) && Sendable(EMPTY_SUBMIT)
  {
    Capacities();
    var v := HeaderValues(EMPTY_SUBMIT.header);
    assert |v| == |LAYOUT| == 13;
    forall i | 0 <= i < |v|
      ensures v[i] < Capacity(LAYOUT[i])
    {
      assert LAYOUT[i] in {1, 2, 4, 8};
      assert i == 0 ==> LAYOUT[i] == 4;
    }
  }

  /** A packet that arrived whole is hidden by the end of the stream that follows it. */
  method HiddenPacketRun(p: Packet) returns (c: Connection, r: Result<Packet, Failure>)
    requires Sendable(p)
    ensures c.Valid() && ClassOf(p) in c.taken
    ensures OfClass(c.routed, ClassOf(p)) == [p] && c.taken[ClassOf(p)] == 0
    ensures r == Err(Terminal(ConnectionClosed))
  {
    hide Encoded, Sendable, ClassOf, ParseAll, TryUnpack, OfClass;
    c := new Connection();
    var chunks := [Encoded(p)];
    assert |chunks[0]| >= HEADER_LENGTH;
    assert chunks[..0] == [] && Concat(chunks) == Concat([]) + Encoded(p);
    assert Concat(chunks) == Encoded(p);
    hide Concat;
    OneRead(p);
    c.ReadPackets(chunks, Eof);
    assert [] + [p] == [p];
    var own := ClassOf(p);
    assert own.Control? || own.Submit? || own.Result?;
    r := c.Receive(own);
  }

  lemma StreamSnoc(packets: seq<Packet>, p: Packet)
    requires AllSendable(packets)
    ensures Sendable(p) ==>
              AllSendable(packets + [p]) && Stream(packets + [p]) == Stream(packets) + Encoded(p)
    ensures packets + [] == packets
  {
    if Sendable(p) {
      StreamAppend(packets, [p]);
      assert Stream([p]) == Encoded(p) + Stream([]);
    }
  }

  /** Once the bytes of some chunks are malformed, the remaining chunks do not matter. */
  lemma {:induction false} RestFails(input: bytes, chunks: seq<bytes>, i: nat)
    requires i <= |chunks| && input == Concat(chunks[..i])
    requires ParseAll(input).failed
    ensures ParseAll(Concat(chunks)).failed
    ensures ParseAll(Concat(chunks)).packets == ParseAll(input).packets
    decreases |chunks|
  {
    if i == |chunks| {
      assert chunks[..i] == chunks;
    } else {
      var front := chunks[..|chunks| - 1];
      assert front[..i] == chunks[..i];
      RestFails(input, front, i);
      ParseFailedStays(Concat(front), chunks[|chunks| - 1]);
    }
  }
}
