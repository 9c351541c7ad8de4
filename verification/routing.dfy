/** The three receive classes of a packet, and the order packets of a class arrive in. */
module Routing {
  import opened Header
  import opened Packets

  datatype Class = Control | Submit | Result

  /** The queue a packet type belongs to (src/nnrp/adapters/tcp.py:241-252). */
  function ClassOf(p: Packet): Class {
    if p.header.msgType == FRAME_SUBMIT then Submit
    else if p.header.msgType == RESULT_PUSH || p.header.msgType == RESULT_DROP then Result
    else Control
  }

  /** The classes by type number: FRAME_SUBMIT is 0x10, RESULT_PUSH 0x12, RESULT_DROP 0x13. */
  lemma ClassByType(p: Packet)
    ensures ClassOf(p) == Submit <==> p.header.msgType == 0x10
    ensures ClassOf(p) == Result <==> p.header.msgType == 0x12 || p.header.msgType == 0x13
    ensures ClassOf(p) == Control <==> p.header.msgType !in {0x10, 0x12, 0x13}
  {
  }

  /** The packets of one class, in order. */
  function OfClass(packets: seq<Packet>, c: Class): seq<Packet> {
    if packets == [] then []
    else
      var last := packets[|packets| - 1];
      OfClass(packets[..|packets| - 1], c) + if ClassOf(last) == c then [last] else []
  }

  lemma {:induction false} OfClassAppend(a: seq<Packet>, b: seq<Packet>, c: Class)
    ensures OfClass(a + b, c) == OfClass(a, c) + OfClass(b, c)
  {
    if b == [] {
      assert a + b == a;
    } else {
      var front := b[..|b| - 1];
      OfClassAppend(a, front, c);
      assert (a + b)[..|a + b| - 1] == a + front;
    }
  }

  /** Packets of a class keep their order: a prefix of the traffic holds a prefix of the class. */
  lemma OfClassPrefix(part: seq<Packet>, whole: seq<Packet>, c: Class)
    requires part <= whole
    ensures OfClass(part, c) <= OfClass(whole, c)
  {
    OfClassAppend(part, whole[|part|..], c);
    assert part + whole[|part|..] == whole;
  }
}
