/** The session recovery ticket (src/nnrp/client/native.py:83-161). */
module RecoveryTicket {
  import opened Outcomes
  import opened Wire

  datatype Ticket = Ticket(session: nat, token: bytes, resumeFrom: Option<nat>, window: nat)

  datatype TicketFault =
    | Truncated | WrongMagic | WrongVersion | ReservedFlags | LengthMismatch | StrayOperation | IllegalField

  /** `NRTK` read as one little-endian number. */
  const TICKET_MAGIC: nat := 0x4B54524E
  const TICKET_VERSION: nat := 1
  const OPERATION_PRESENT: nat := 1

  /** magic, version, flags, session, token length, window and operation id. */
  const PREFIX: seq<nat> := [4] + [2, 2] + [4, 4, 4] + [8]
  const PREFIX_SIZE: nat := 28

  lemma PrefixSize()
    ensures Size(PREFIX) == PREFIX_SIZE
  {
    SizeConcat([4] + [2, 2] + [4, 4, 4], [8]);
    SizeConcat([4] + [2, 2], [4, 4, 4]);
    SizeConcat([4], [2, 2]);
  }

  /** The tickets that exist: `_create` makes no others. */
  predicate Legal(t: Ticket) {
    && 1 <= t.session < 0x1_0000_0000
    && 0 < |t.token| < 0x1_0000_0000
    && (t.resumeFrom.Some? ==> 1 <= t.resumeFrom.value < 0x1_0000_0000_0000_0000)
    && t.window < 0x1_0000_0000
  }

  function Values(t: Ticket): seq<nat> {
    [TICKET_MAGIC, TICKET_VERSION, if t.resumeFrom.Some? then OPERATION_PRESENT else 0, t.session, |t.token|, t.window,
     if t.resumeFrom.Some? then t.resumeFrom.value else 0]
  }

  lemma LegalFits(t: Ticket)
    requires Legal(t)
    ensures Fits(Values(t), PREFIX)
  {
    Capacities();
  }

  function ToBytes(t: Ticket): bytes
    requires Legal(t)
  {
    LegalFits(t);
    PackRecord(Values(t), PREFIX) + t.token
  }

  function FromBytes(s: bytes): Result<Ticket, TicketFault> {
    PrefixSize();
    if |s| < PREFIX_SIZE then Err(Truncated)
    else
      var v := UnpackRecord(s[..PREFIX_SIZE], PREFIX);
      var present := v[2] % 2 == 1;
      if v[0] != TICKET_MAGIC then Err(WrongMagic)
      else if v[1] != TICKET_VERSION then Err(WrongVersion)
      else if v[2] - v[2] % 2 != 0 then Err(ReservedFlags)
      else if |s| != PREFIX_SIZE + v[4] then Err(LengthMismatch)
      else if !present && v[6] != 0 then Err(StrayOperation)
      else
        var t := Ticket(v[3], s[PREFIX_SIZE..], if present then Some(v[6]) else None, v[5]);
        if Legal(t) then Ok(t) else Err(IllegalField)
  }

  /** Every ticket is read back unchanged. */
  lemma TicketRoundTrip(t: Ticket)
    requires Legal(t)
    ensures FromBytes(ToBytes(t)) == Ok(t)
  {
    PrefixSize();
    LegalFits(t);
    UnpackPackRecord(Values(t), PREFIX);
    var s := ToBytes(t);
    assert s[..PREFIX_SIZE] == PackRecord(Values(t), PREFIX);
    assert s[PREFIX_SIZE..] == t.token;
  }

  /** Every accepted encoding is a legal ticket's, so no two encodings mean the same ticket. */
  lemma TicketReencode(s: bytes)
    requires FromBytes(s).Ok?
    ensures Legal(FromBytes(s).value) && ToBytes(FromBytes(s).value) == s
  {
    PrefixSize();
    var t := FromBytes(s).value;
    var v := UnpackRecord(s[..PREFIX_SIZE], PREFIX);
    assert v == Values(t);
    PackUnpackRecord(s[..PREFIX_SIZE], PREFIX);
    assert s == s[..PREFIX_SIZE] + s[PREFIX_SIZE..];
  }
}
