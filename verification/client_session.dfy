/** The client session: event pumps and operation frames (src/nnrp/native.py:4338-4986, 5250-5417). */
module ClientSession {
  import opened Outcomes
  import opened Sequences
  import opened NativeEvents
  import opened Ledger
  import opened FrameTable

  /** `Native` is a refusal by the native side, `Mismatch` a submit whose metadata names another operation. */
  datatype Failure = WouldBlock | InvalidState | Native | Mismatch

  const U32_MAX: nat := 0xFFFF_FFFF
  const U64_MAX: nat := 0xFFFF_FFFF_FFFF_FFFF

  function Traffic(wire: seq<Event>): (t: seq<Arrival<Event>>)
    ensures |t| == |wire|
  {
    Stamped(wire)
  }

  /** What ends an operation, by number: a pushed or dropped result, an error, or a record of a final state. */
  predicate Ends(e: Event) {
    || e.kind in {6, 7, 10}
    || (e.Lifecycle? && e.kind == 14
        && (e.state.Completed? || e.state.Cancelled? || e.state.Superseded? || e.state.Failed?))
  }

  /** An event of session `session` that ends operation `op`. */
  predicate Answers(e: Event, session: nat, op: nat) {
    e.session == session && OperationId(e) == op && Ends(e)
  }

  lemma AnswersByField(a: Arrival<Event>, session: nat, op: nat)
    ensures Answers(a.event, session, op) <==> ResultOf(session, op)(a)
  {
    ResultByNumber(a.event);
  }

  /** What retires it from the table: that, and the CANCEL, ABORT and SUPERSEDE frames. */
  predicate Retired(e: Event) {
    Ends(e) || (e.Runtime? && e.messageType in {0x30, 0x31, 0x35})
  }

  /** What a pulled event does to the frame table of session `session`. */
  function NotedOne(e: Event, session: nat): seq<Entry> {
    if e.session != session then []
    else if ClosesSession(e) then [Clear]
    else if OperationId(e) == 0 then []
    else if IsResult(e) || (e.Runtime? && e.messageType in {CANCEL, ABORT, SUPERSEDE}) then [Forget(OperationId(e))]
    else []
  }

  function Noted(events: seq<Event>, session: nat): seq<Entry> {
    if events == [] then []
    else Noted(events[..|events| - 1], session) + NotedOne(events[|events| - 1], session)
  }

  lemma NotedNext(events: seq<Event>, e: Event, session: nat)
    ensures Noted(events + [e], session) == Noted(events, session) + NotedOne(e, session)
  {
    hide NotedOne;
    assert (events + [e])[..|events|] == events;
  }

  lemma {:induction false} NotedSplit(a: seq<Event>, b: seq<Event>, session: nat)
    ensures Noted(a + b, session) == Noted(a, session) + Noted(b, session)
  {
    hide NotedOne;
    if b == [] {
      assert a + b == a;
    } else {
      hide Noted;
      var front, last := b[..|b| - 1], b[|b| - 1];
      NotedSplit(a, front, session);
      assert b == front + [last] && a + b == a + front + [last];
      NotedNext(a + front, last, session);
      NotedNext(front, last, session);
    }
  }

  /** What was noted while two runs of events were pulled, one after the other. */
  lemma NotedPulled(wire: seq<Event>, from: nat, at: nat, to: nat, session: nat)
    requires from <= at <= to <= |wire|
    ensures Noted(wire[from..to], session) == Noted(wire[from..at], session) + Noted(wire[at..to], session)
    ensures Traffic(wire)[from..to] == Traffic(wire)[from..at] + Traffic(wire)[at..to]
  {
    hide Noted, Traffic;
    SliceJoin(wire, from, at, to);
    SliceJoin(Traffic(wire), from, at, to);
    NotedSplit(wire[from..at], wire[at..to], session);
  }

  lemma NotedNone(wire: seq<Event>, at: nat, session: nat)
    requires at <= |wire|
    ensures Noted(wire[at..at], session) == []
  {
  }

  lemma NotedGrows(wire: seq<Event>, from: nat, to: nat, session: nat)
    requires from <= to < |wire|
    ensures Traffic(wire)[from..to + 1] == Traffic(wire)[from..to] + [Arrival(to, wire[to])]
    ensures Noted(wire[from..to + 1], session) == Noted(wire[from..to], session) + NotedOne(wire[to], session)
  {
    hide Noted;
    assert wire[from..to + 1] == wire[from..to] + [wire[to]];
    NotedNext(wire[from..to], wire[to], session);
  }

  /** A frame that carries an operation id, and which (src/nnrp/native.py:6006-6031). */
  function RuntimeOperationId(messageType: nat, named: nat): Option<nat> {
    if CANCEL <= messageType <= BUDGET_UPDATE || messageType in {0x3D, 0x3E, OBJECT_REF, OBJECT_RELEASE}
    then Some(named) else None
  }

  predicate MayNameNone(messageType: nat) {
    messageType in {CANCEL, ABORT, BUDGET_UPDATE, OBJECT_REF, OBJECT_RELEASE}
  }

  /** The operation-scoped frame types and those that may name no operation, by number. */
  lemma ScopedByNumber(messageType: nat, named: nat)
    ensures RuntimeOperationId(messageType, named) ==
            if 0x30 <= messageType <= 0x36 || messageType in {0x3D, 0x3E, 0x42, 0x43} then Some(named) else None
    ensures MayNameNone(messageType) <==> messageType in {0x30, 0x31, 0x36, 0x42, 0x43}
  {
  }

  function OfEventKind(kind: Option<nat>): Arrival<Event> -> bool {
    (a: Arrival<Event>) => kind.None? || a.event.kind == kind.value
  }

  predicate RuntimeOnly(a: Arrival<Event>) {
    a.event.Runtime?
  }

  function ResultOf(session: nat, op: nat): Arrival<Event> -> bool {
    (a: Arrival<Event>) => IsResult(a.event) && Matches(a.event, session, op)
  }

  /** The traffic is the wire, each event with its place. */
  lemma PlacesOf(wire: seq<Event>, n: nat)
    requires n <= |wire|
    ensures forall i :: 0 <= i < n ==> Arrival(i, wire[i]) in Traffic(wire)[..n]
    ensures forall a :: a in Traffic(wire)[..n] ==> a.place < n && a.event == wire[a.place]
  {
    forall i | 0 <= i < n
      ensures Arrival(i, wire[i]) in Traffic(wire)[..n]
    {
      assert Traffic(wire)[..n][i] == Arrival(i, wire[i]);
    }
  }

  lemma NextOnWire(wire: seq<Event>, from: nat, to: nat)
    requires from <= to <= |wire|
    ensures from < to ==> Traffic(wire)[from..to][0] == Arrival(from, wire[from])
  {
  }

  lemma TrafficDistinct(wire: seq<Event>)
    ensures NoRepeats(Traffic(wire))
  {
    StampedDistinct(wire);
  }

  lemma KeepsAccount(wire: seq<Event>, p: Pump<Event>, r: Receipt<Event>)
    requires Accounted(Traffic(wire), p) && p.pulled + r.pulls <= |wire|
    ensures Accounted(Traffic(wire), Receive(Traffic(wire), p, r))
  {
    TrafficDistinct(wire);
    ReceiveKeeps(Traffic(wire), p, r);
  }

  ghost predicate Ascending(s: seq<Arrival<Event>>) {
    forall i, j :: 0 <= i < j < |s| ==> s[i].place < s[j].place
  }

  lemma {:induction false} WithoutAscending(all: seq<Arrival<Event>>, gone: seq<Arrival<Event>>)
    requires Ascending(all)
    ensures Ascending(Without(all, gone))
  {
    if all != [] {
      var front := all[..|all| - 1];
      WithoutAscending(front, gone);
      WithoutMembers(front, gone);
      forall x | x in Without(front, gone)
        ensures x.place < all[|all| - 1].place
      {
        var k :| 0 <= k < |front| && front[k] == x;
      }
    }
  }

  lemma TrafficAscending(wire: seq<Event>, from: nat, to: nat)
    requires from <= to <= |wire|
    ensures Ascending(Traffic(wire)[..to])
    ensures forall x :: x in Traffic(wire)[from..to] ==> x !in Traffic(wire)[..from]
  {
  }

  /** Receiving on the events of the wire: what was handed over, and what is not held back with room left. */
  lemma ReceivedOnWire(
    wire: seq<Event>, p: Pump<Event>, want: Arrival<Event> -> bool, limit: Option<nat>, pulls: nat,
    taken: seq<Arrival<Event>>)
    requires Accounted(Traffic(wire), p) && p.pulled + pulls <= |wire|
    requires Receive(Traffic(wire), p, Receipt(want, limit, pulls)).delivered == p.delivered + taken
    ensures forall a :: a in taken ==>
              want(a) && a !in p.delivered && a.place < p.pulled + pulls && a.event == wire[a.place]
    ensures Room(limit, |taken|) ==>
              forall i :: 0 <= i < p.pulled + pulls && want(Arrival(i, wire[i])) ==>
                Arrival(i, wire[i]) in p.delivered + taken
  {
    hide Traffic, Receive, Accounted;
    TrafficDistinct(wire);
    ReceivedWanted(Traffic(wire), p, Receipt(want, limit, pulls), taken);
    PlacesOf(wire, p.pulled + pulls);
  }

  lemma OfKindReceived(wire: seq<Event>, p: Pump<Event>, kind: Option<nat>, limit: Option<nat>, pulls: nat,
                       taken: seq<Arrival<Event>>)
    requires Accounted(Traffic(wire), p) && p.pulled + pulls <= |wire|
    requires Receive(Traffic(wire), p, Receipt(OfEventKind(kind), limit, pulls)).delivered == p.delivered + taken
    ensures forall a :: a in taken ==>
              && a.place < p.pulled + pulls && a.event == wire[a.place] && a !in p.delivered
              && (kind.Some? ==> a.event.kind == kind.value)
    ensures Room(limit, |taken|) ==>
              forall i :: 0 <= i < p.pulled + pulls && (kind.Some? ==> wire[i].kind == kind.value) ==>
                Arrival(i, wire[i]) in p.delivered + taken
  {
    hide Traffic, Receive, Accounted;
    ReceivedOnWire(wire, p, OfEventKind(kind), limit, pulls, taken);
  }

  lemma RuntimeReceived(wire: seq<Event>, p: Pump<Event>, limit: Option<nat>, pulls: nat, taken: seq<Arrival<Event>>)
    requires Accounted(Traffic(wire), p) && p.pulled + pulls <= |wire|
    requires Receive(Traffic(wire), p, Receipt(RuntimeOnly, limit, pulls)).delivered == p.delivered + taken
    ensures forall a :: a in taken ==>
              a.place < p.pulled + pulls && a.event == wire[a.place] && a !in p.delivered && a.event.Runtime?
    ensures Room(limit, |taken|) ==>
              forall i :: 0 <= i < p.pulled + pulls && wire[i].Runtime? ==> Arrival(i, wire[i]) in p.delivered + taken
  {
    hide Traffic, Receive, Accounted;
    ReceivedOnWire(wire, p, RuntimeOnly, limit, pulls, taken);
  }

  /** What a receiver of one event returns is the earliest wanted event that was not delivered before. */
  lemma TakesEarliest(wire: seq<Event>, p: Pump<Event>, want: Arrival<Event> -> bool, pulls: nat, a: Arrival<Event>)
    requires Accounted(Traffic(wire), p) && p.pulled + pulls <= |wire|
    requires Receive(Traffic(wire), p, Receipt(want, Some(1), pulls)).delivered == p.delivered + [a]
    ensures want(a) && a !in p.delivered && a in Traffic(wire)[..p.pulled + pulls]
    ensures forall b :: b in Traffic(wire)[..p.pulled + pulls] && want(b) && b.place < a.place ==> b in p.delivered
  {
    hide Traffic, Without, Select, Retain;
    var t := Traffic(wire);
    var after, queue := t[..p.pulled + pulls], p.pending + t[p.pulled..p.pulled + pulls];
    TrafficDistinct(wire);
    QueueAccounted(t, p, pulls);
    TrafficAscending(wire, p.pulled, p.pulled + pulls);
    WithoutMembers(after, p.delivered);
    WithoutAscending(after, p.delivered);
    var taken := Select(queue, want, Some(1));
    assert p.delivered + taken == p.delivered + [a];
    assert taken == (p.delivered + taken)[|p.delivered|..] == [a];
    FirstWanted(queue, want, a);
  }

  /** When such a receiver returns nothing, every wanted event pulled so far was delivered before. */
  lemma NothingWanted(wire: seq<Event>, p: Pump<Event>, want: Arrival<Event> -> bool, pulls: nat)
    requires Accounted(Traffic(wire), p) && p.pulled + pulls <= |wire|
    requires Receive(Traffic(wire), p, Receipt(want, Some(1), pulls)).delivered == p.delivered
    ensures forall b :: b in Traffic(wire)[..p.pulled + pulls] && want(b) ==> b in p.delivered
  {
    hide Traffic, Without, Select, Retain;
    var t := Traffic(wire);
    var queue := p.pending + t[p.pulled..p.pulled + pulls];
    KeepsAccount(wire, p, Receipt(want, Some(1), pulls));
    var taken := Select(queue, want, Some(1));
    assert p.delivered + taken == p.delivered;
    assert |taken| == 0;
    RoomLeft(queue, want, Some(1));
    WithoutMembers(t[..p.pulled + pulls], p.delivered);
    assert Room(Some(1), |taken|);
    var left := Retain(queue, want, Some(1));
    assert left == Without(t[..p.pulled + pulls], p.delivered);
    forall b | b in t[..p.pulled + pulls] && want(b)
      ensures b in p.delivered
    {
      assert b in left ==> !want(b);
    }
  }

  /** What a receiver of one event that took `taken` may answer. */
  lemma AnswersEarliest(
    wire: seq<Event>, p: Pump<Event>, want: Arrival<Event> -> bool, pulls: nat, taken: seq<Arrival<Event>>)
    requires Accounted(Traffic(wire), p) && p.pulled + pulls <= |wire|
    requires Receive(Traffic(wire), p, Receipt(want, Some(1), pulls)).delivered == p.delivered + taken
    requires |taken| <= 1
    ensures taken == [] ==> forall b :: b in Traffic(wire)[..p.pulled + pulls] && want(b) ==> b in p.delivered
    ensures taken != [] ==>
              && want(taken[0]) && taken[0] in Traffic(wire)[..p.pulled + pulls]
              && forall b :: b in Traffic(wire)[..p.pulled + pulls] && want(b) && b.place < taken[0].place ==>
                   b in p.delivered
  {
    hide Traffic, Receive, Accounted;
    if taken == [] {
      assert p.delivered + taken == p.delivered;
      NothingWanted(wire, p, want, pulls);
    } else {
      assert taken == [taken[0]];
      TakesEarliest(wire, p, want, pulls, taken[0]);
    }
  }

  /** The same for the results of an operation, on the events of the wire. */
  lemma AnswersOperation(
    wire: seq<Event>, p: Pump<Event>, session: nat, op: nat, pulls: nat, taken: seq<Arrival<Event>>)
    requires Accounted(Traffic(wire), p) && p.pulled + pulls <= |wire|
    requires Receive(Traffic(wire), p, Receipt(ResultOf(session, op), Some(1), pulls)).delivered == p.delivered + taken
    requires |taken| <= 1
    ensures taken == [] ==> forall i :: 0 <= i < p.pulled + pulls && Answers(wire[i], session, op) ==>
                              Arrival(i, wire[i]) in p.delivered
    ensures taken != [] ==>
              && Answers(taken[0].event, session, op)
              && taken[0].place < p.pulled + pulls && taken[0].event == wire[taken[0].place]
              && forall i :: 0 <= i < taken[0].place && Answers(wire[i], session, op) ==>
                   Arrival(i, wire[i]) in p.delivered
  {
    hide Traffic, Receive, Accounted, ResultOf, Answers;
    var n := p.pulled + pulls;
    AnswersEarliest(wire, p, ResultOf(session, op), pulls, taken);
    PlacesOf(wire, n);
    if taken != [] {
      AnswersByField(taken[0], session, op);
    }
    forall i | 0 <= i < n && Answers(wire[i], session, op) && (taken == [] || i < taken[0].place)
      ensures Arrival(i, wire[i]) in p.delivered
    {
      AnswersByField(Arrival(i, wire[i]), session, op);
    }
  }

  lemma FirstWanted(queue: seq<Arrival<Event>>, want: Arrival<Event> -> bool, a: Arrival<Event>)
    requires Ascending(queue) && Select(queue, want, Some(1)) == [a]
    ensures a in queue && want(a)
    ensures forall b :: b in queue && want(b) ==> a.place <= b.place
  {
    var i := 0;
    while i < |queue| && !want(queue[i])
      invariant 0 <= i <= |queue|
      invariant forall j :: 0 <= j < i ==> !want(queue[j])
    {
      i := i + 1;
    }
    SelectOne(queue, want, i);
  }

  class NativeRuntimeSession {
    /** The native session handle, and every event the native side produces over the whole run. */
    const handle: nat
    const wire: seq<Event>
    var pulled: nat
    var pending: seq<Arrival<Event>>
    var frames: map<nat, nat>
    var nextRuntimeFrameId: nat
    var nextControlSequence: nat
    var closed: bool
    ghost var delivered: seq<Arrival<Event>>
    ghost var history: seq<Entry>

    ghost predicate Valid()
      reads this
    {
      && Accounted(Traffic(wire), State()) && Booked()
      && 1 <= nextRuntimeFrameId <= U32_MAX && 1 <= nextControlSequence <= U64_MAX
    }

    ghost predicate Booked()
      reads this
    {
      pulled <= |wire| && frames == Table(history)
    }

    ghost function State(): Pump<Event>
      reads this
    {
      Pump(pulled, pending, delivered)
    }

    constructor (handle: nat, wire: seq<Event>)
      ensures Valid() && this.handle == handle && this.wire == wire
      ensures State() == Pump(0, [], []) && history == [] && !closed && nextRuntimeFrameId == 1
    {
      this.handle, this.wire := handle, wire;
      pulled, pending, frames, closed, delivered, history := 0, [], map[], false, [], [];
      nextRuntimeFrameId, nextControlSequence := 1, 1;
      new;
      WithoutNone(Traffic(wire)[..0]);
    }

    method Note(e: Entry)
      requires frames == Table(history)
      modifies this`frames, this`history
      ensures frames == Table(history) && history == old(history) + [e]
      ensures frames == Apply(old(frames), e)
    {
      frames := Apply(frames, e);
      history := history + [e];
    }

    /** `_observe_polled_event`. */
    method Observe(e: Event)
      requires frames == Table(history)
      modifies this`frames, this`history
      ensures frames == Table(history) && history == old(history) + NotedOne(e, handle)
      ensures e.session != handle ==> frames == old(frames)
      ensures e.session == handle && e.Runtime? && e.messageType == 0x09 ==> frames == map[]
      ensures e.session == handle && !(e.Runtime? && e.messageType == 0x09) ==>
                frames == if Retired(e) && OperationId(e) != 0 then old(frames) - {OperationId(e)} else old(frames)
    {
      assert [] + NotedOne(e, handle) == NotedOne(e, handle);
      if e.session != handle {
        return;
      }
      if ClosesSession(e) {
        Note(Clear);
        return;
      }
      var op := OperationId(e);
      if op == 0 {
        return;
      }
      var terminal := IsResult(e);
      if e.Runtime? {
        terminal := terminal || e.messageType in {CANCEL, ABORT, SUPERSEDE};
      }
      if terminal {
        Note(Forget(op));
      }
    }

    /** One native poll: the next few events of the wire, observed. The native side may hold any number back. */
    method PollNative(maxEvents: nat) returns (batch: seq<Arrival<Event>>)
      requires Booked()
      modifies this`pulled, this`frames, this`history
      ensures Booked() && old(pulled) <= pulled <= old(pulled) + maxEvents
      ensures batch == Traffic(wire)[old(pulled)..pulled]
      ensures history == old(history) + Noted(wire[old(pulled)..pulled], handle)
    {
      hide Traffic, Table, Noted, NotedOne;
      var count: nat :| count <= maxEvents && pulled + count <= |wire|;
      batch := [];
      var start := pulled;
      ghost var past := history;
      NotedNone(wire, start, handle);
      while pulled < start + count
        invariant start <= pulled <= start + count
        invariant batch == Traffic(wire)[start..pulled]
        invariant Booked() && history == past + Noted(wire[start..pulled], handle)
      {
        NotedGrows(wire, start, pulled, handle);
        batch := batch + [Arrival(pulled, wire[pulled])];
        Observe(wire[pulled]);
        pulled := pulled + 1;
      }
    }

    /** Takes the wanted events out of the queue while there is room. */
    method TakePending(want: Arrival<Event> -> bool, limit: Option<nat>) returns (taken: seq<Arrival<Event>>)
      modifies this`pending
      ensures taken == Select(old(pending), want, limit) && pending == Retain(old(pending), want, limit)
    {
      hide Select, Retain;
      taken := [];
      var retained := [];
      SelectNone(want, limit);
      for i := 0 to |pending|
        invariant pending == old(pending)
        invariant taken == Select(pending[..i], want, limit) && retained == Retain(pending[..i], want, limit)
      {
        SelectNext(pending[..i], pending[i], want, limit);
        assert pending[..i + 1] == pending[..i] + [pending[i]];
        if Room(limit, |taken|) && want(pending[i]) {
          taken := taken + [pending[i]];
        } else {
          retained := retained + [pending[i]];
        }
      }
      assert pending[..|pending|] == pending;
      pending := retained;
    }

    /** Hands out a polled batch: wanted events to the caller while there is room, the others to the queue. */
    method Distribute(batch: seq<Arrival<Event>>, want: Arrival<Event> -> bool, limit: Option<nat>,
                      already: seq<Arrival<Event>>, ghost queue: seq<Arrival<Event>>)
      returns (taken: seq<Arrival<Event>>)
      requires already == Select(queue, want, limit) && pending == Retain(queue, want, limit)
      modifies this`pending
      ensures taken == Select(queue + batch, want, limit) && pending == Retain(queue + batch, want, limit)
    {
      hide Select, Retain;
      taken := already;
      assert queue + batch[..0] == queue;
      for i := 0 to |batch|
        invariant taken == Select(queue + batch[..i], want, limit)
        invariant pending == Retain(queue + batch[..i], want, limit)
      {
        SelectNext(queue + batch[..i], batch[i], want, limit);
        assert queue + batch[..i + 1] == (queue + batch[..i]) + [batch[i]];
        if Room(limit, |taken|) && want(batch[i]) {
          taken := taken + [batch[i]];
        } else {
          pending := pending + [batch[i]];
        }
      }
      assert batch[..|batch|] == batch;
    }

    /** await_event: the first pending event, else at most one event straight from the native side. */
    method AwaitEvent() returns (r: Result<Option<Arrival<Event>>, Failure>)
      requires Valid()
      modifies this`pulled, this`frames, this`history, this`pending, this`delivered
      ensures Valid()
      ensures closed ==> r == Err(InvalidState) && State() == old(State()) && history == old(history)
      ensures !closed ==>
                && r.Ok? && old(pulled) <= pulled <= old(pulled) + 1
                && State() == Receive(Traffic(wire), old(State()),
                                      Receipt(OfEventKind(None), Some(1), pulled - old(pulled)))
                && delivered == old(delivered) + (if r.value.Some? then [r.value.value] else [])
                && history == old(history) + Noted(wire[old(pulled)..pulled], handle)
                && (old(pending) != [] ==> pulled == old(pulled) && r.value == Some(old(pending)[0]))
                && (old(pending) == [] ==>
                      r.value == if pulled == old(pulled) then None else Some(Arrival(old(pulled), wire[old(pulled)])))
                && pending == if old(pending) == [] then [] else old(pending)[1..]
    {
      hide Traffic, Table, Noted, Accounted, Receive;
      if closed {
        return Err(InvalidState);
      }
      ghost var was := State();
      ghost var traffic := Traffic(wire);
      NotedNone(wire, pulled, handle);
      assert was.pending + traffic[pulled..pulled] == was.pending;
      if pending != [] {
        var first := pending[0];
        pending := pending[1..];
        delivered := delivered + [first];
        r := Ok(Some(first));
      } else {
        var batch := PollNative(1);
        assert was.pending + batch == batch;
        NextOnWire(wire, was.pulled, pulled);
        if batch == [] {
          r := Ok(None);
        } else {
          delivered := delivered + [batch[0]];
          r := Ok(Some(batch[0]));
        }
      }
      assert was.delivered + [] == was.delivered;
      ghost var queue := was.pending + traffic[was.pulled..pulled];
      assert queue != [] ==> queue[..0] + queue[1..] == pending;
      ReceiveOne(traffic, was, OfEventKind(None), pulled - was.pulled, 0);
      KeepsAccount(wire, was, Receipt(OfEventKind(None), Some(1), pulled - was.pulled));
    }

    /** poll_events_batch: up to `maxEvents` events of one kind (of any kind for None), earliest first. */
    method PollEventsBatch(maxEvents: nat, kind: Option<nat>) returns (r: Result<seq<Arrival<Event>>, Failure>)
      requires Valid()
      modifies this`pulled, this`frames, this`history, this`pending, this`delivered
      ensures Valid()
      ensures closed ==> r == Err(InvalidState) && State() == old(State()) && history == old(history)
      ensures !closed ==>
                && r.Ok? && old(pulled) <= pulled <= old(pulled) + maxEvents
                && State() == Receive(Traffic(wire), old(State()),
                                      Receipt(OfEventKind(kind), Some(maxEvents), pulled - old(pulled)))
                && delivered == old(delivered) + r.value
                && history == old(history) + Noted(wire[old(pulled)..pulled], handle)
                && |r.value| <= maxEvents
                && (forall a :: a in r.value ==>
                      && a.place < pulled && a.event == wire[a.place] && a !in old(delivered)
                      && (kind.Some? ==> a.event.kind == kind.value))
                && (|r.value| < maxEvents ==>
                      forall i :: 0 <= i < pulled && (kind.Some? ==> wire[i].kind == kind.value) ==>
                        Arrival(i, wire[i]) in delivered)
    {
      hide Traffic, Table, Noted, Accounted, Select, Retain, OfEventKind;
      if closed {
        return Err(InvalidState);
      }
      ghost var was := State();
      ghost var traffic := Traffic(wire);
      var want, limit := OfEventKind(kind), Some(maxEvents);
      NotedNone(wire, pulled, handle);
      assert was.pending + traffic[pulled..pulled] == was.pending;
      if maxEvents == 0 {
        SelectZero(pending, want);
        return Ok([]);
      }
      var events := TakePending(want, limit);
      SelectWithin(was.pending, want, limit);
      var remaining := maxEvents - |events|;
      if remaining != 0 {
        var batch := PollNative(remaining);
        events := Distribute(batch, want, limit, events, was.pending);
      }
      delivered := delivered + events;
      assert State() == Receive(traffic, was, Receipt(want, limit, pulled - was.pulled));
      KeepsAccount(wire, was, Receipt(want, limit, pulled - was.pulled));
      SelectWithin(was.pending + traffic[was.pulled..pulled], want, limit);
      OfKindReceived(wire, was, kind, limit, pulled - was.pulled, events);
      r := Ok(events);
    }

    /**
     * poll_runtime_frames: runtime frames earliest first, up to `maxEvents` in one poll, or with None in polls of
     * 64 until one comes back empty. Other events stay queued.
     */
    method PollRuntimeFrames(maxEvents: Option<nat>) returns (got: seq<Arrival<Event>>)
      requires Valid()
      modifies this`pulled, this`frames, this`history, this`pending, this`delivered
      ensures Valid() && old(pulled) <= pulled
      ensures State() == Receive(Traffic(wire), old(State()),
                                 Receipt(RuntimeOnly, maxEvents, pulled - old(pulled)))
      ensures delivered == old(delivered) + got
      ensures history == old(history) + Noted(wire[old(pulled)..pulled], handle)
      ensures maxEvents.None? ==> forall a :: a in pending ==> !RuntimeOnly(a)
      ensures maxEvents.Some? ==> |got| <= maxEvents.value
      ensures forall a :: a in got ==>
                a.place < pulled && a.event == wire[a.place] && a.event.Runtime? && a !in old(delivered)
      ensures maxEvents.None? || |got| < maxEvents.value ==>
                forall i :: 0 <= i < pulled && wire[i].Runtime? ==> Arrival(i, wire[i]) in delivered
    {
      hide Traffic, Table, Noted, Accounted, Select, Retain, Receive;
      ghost var was, past := State(), history;
      ghost var traffic := Traffic(wire);
      NotedNone(wire, pulled, handle);
      assert was.pending + traffic[pulled..pulled] == was.pending;
      if maxEvents == Some(0) {
        SelectZero(pending, RuntimeOnly);
        assert was.delivered + [] == was.delivered;
        ReceiveSplits(traffic, was, Receipt(RuntimeOnly, maxEvents, 0));
        return [];
      }
      got := TakePending(RuntimeOnly, maxEvents);
      SelectWithin(was.pending, RuntimeOnly, maxEvents);
      if maxEvents.None? || |got| < maxEvents.value {
        var batchSize := if maxEvents.None? || maxEvents.value - |got| < 64 then 64 else maxEvents.value - |got|;
        var polling := true;
        while polling
          invariant was.pulled <= pulled && Booked() && delivered == was.delivered
          invariant history == past + Noted(wire[was.pulled..pulled], handle)
          invariant got == Select(was.pending + traffic[was.pulled..pulled], RuntimeOnly, maxEvents)
          invariant pending == Retain(was.pending + traffic[was.pulled..pulled], RuntimeOnly, maxEvents)
          decreases |wire| - pulled, polling
        {
          ghost var at := pulled;
          ghost var queue := was.pending + traffic[was.pulled..at];
          var batch := PollNative(batchSize);
          NotedPulled(wire, was.pulled, at, pulled, handle);
          assert queue + batch == was.pending + traffic[was.pulled..pulled];
          assert batch == [] ==> queue + batch == queue;
          if batch == [] {
            polling := false;
          } else {
            got := Distribute(batch, RuntimeOnly, maxEvents, got, queue);
            polling := maxEvents.None?;
          }
        }
      }
      if maxEvents.None? {
        RoomLeft(was.pending + traffic[was.pulled..pulled], RuntimeOnly, maxEvents);
      }
      delivered := delivered + got;
      ReceiveSplits(traffic, was, Receipt(RuntimeOnly, maxEvents, pulled - was.pulled));
      KeepsAccount(wire, was, Receipt(RuntimeOnly, maxEvents, pulled - was.pulled));
      SelectWithin(was.pending + traffic[was.pulled..pulled], RuntimeOnly, maxEvents);
      RuntimeReceived(wire, was, maxEvents, pulled - was.pulled, got);
    }

    /** The first pending result of an operation, removed from the queue. */
    method TakePendingResult(op: nat) returns (taken: seq<Arrival<Event>>)
      modifies this`pending
      ensures taken == Select(old(pending), ResultOf(handle, op), Some(1))
      ensures pending == Retain(old(pending), ResultOf(handle, op), Some(1))
      ensures |taken| <= 1
      ensures taken != [] ==> Answers(taken[0].event, handle, op)
      ensures taken == [] ==> pending == old(pending) && forall a :: a in pending ==> !Answers(a.event, handle, op)
    {
      hide Select, Retain, IsResult, Matches, Answers;
      forall a: Arrival<Event>
        ensures Answers(a.event, handle, op) <==> ResultOf(handle, op)(a)
      {
        AnswersByField(a, handle, op);
      }
      for index := 0 to |pending|
        invariant pending == old(pending)
        invariant forall j :: 0 <= j < index ==> !ResultOf(handle, op)(pending[j])
      {
        if IsResult(pending[index].event) && Matches(pending[index].event, handle, op) {
          SelectOne(pending, ResultOf(handle, op), index);
          taken := [pending[index]];
          pending := pending[..index] + pending[index + 1..];
          return;
        }
      }
      SelectOne(pending, ResultOf(handle, op), |pending|);
      taken := [];
    }

    /**
     * poll_result: the earliest undelivered terminal event of the operation, from the queue or else from one poll
     * (of one event when no maximum is given); everything else polled is queued.
     */
    method PollResult(op: nat, maxEvents: Option<nat>) returns (r: Result<Arrival<Event>, Failure>)
      requires Valid()
      modifies this`pulled, this`frames, this`history, this`pending, this`delivered
      ensures Valid()
      ensures closed ==> r == Err(InvalidState) && State() == old(State()) && history == old(history)
      ensures !closed ==>
                && old(pulled) <= pulled <= old(pulled) + (if maxEvents.None? then 1 else maxEvents.value)
                && State() == Receive(Traffic(wire), old(State()),
                                      Receipt(ResultOf(handle, op), Some(1), pulled - old(pulled)))
                && history == old(history) + Noted(wire[old(pulled)..pulled], handle)
      ensures !closed && r.Err? ==>
                r.error == WouldBlock && delivered == old(delivered) &&
                forall i :: 0 <= i < pulled && Answers(wire[i], handle, op) ==> Arrival(i, wire[i]) in delivered
      ensures r.Ok? ==>
                && delivered == old(delivered) + [r.value] && Answers(r.value.event, handle, op)
                && r.value.place < pulled && r.value.event == wire[r.value.place]
                && forall i :: 0 <= i < r.value.place && Answers(wire[i], handle, op) ==>
                     Arrival(i, wire[i]) in old(delivered)
    {
      hide Traffic, Table, Noted, Accounted, Select, Retain, ResultOf, Receive, Answers;
      if closed {
        return Err(InvalidState);
      }
      ghost var was := State();
      ghost var traffic := Traffic(wire);
      ghost var want := ResultOf(handle, op);
      NotedNone(wire, pulled, handle);
      assert was.pending + traffic[pulled..pulled] == was.pending;
      var matched := TakePendingResult(op);
      var count := if maxEvents.None? then 1 else maxEvents.value;
      if matched == [] && count != 0 {
        var batch := PollNative(count);
        matched := Distribute(batch, ResultOf(handle, op), Some(1), matched, was.pending);
      }
      SelectWithin(was.pending + traffic[was.pulled..pulled], want, Some(1));
      delivered := delivered + matched;
      ReceiveSplits(traffic, was, Receipt(want, Some(1), pulled - was.pulled));
      KeepsAccount(wire, was, Receipt(want, Some(1), pulled - was.pulled));
      AnswersOperation(wire, was, handle, op, pulled - was.pulled, matched);
      if matched == [] {
        assert was.delivered + [] == was.delivered;
        return Err(WouldBlock);
      }
      assert matched == [matched[0]];
      r := Ok(matched[0]);
    }

    /**
     * The first half of submit_operation, up to the native submit; `metadataOp` is the operation id in the submit
     * metadata, `accepted` the native verdict. No lock is held from here to the second half: other threads may poll,
     * send or close in between. `dispatched` is the point of the history at which the submit was made.
     */
    method DispatchSubmit(op: nat, metadataOp: nat, accepted: bool)
      returns (r: Result<(), Failure>, ghost dispatched: nat)
      requires Valid()
      ensures r == if closed then Err(InvalidState) else if metadataOp != op then Err(Mismatch)
                   else if !accepted then Err(Native) else Ok(())
      ensures dispatched == |history|
    {
      dispatched := |history|;
      if closed {
        return Err(InvalidState), dispatched;
      }
      if metadataOp != op {
        return Err(Mismatch), dispatched;
      }
      if !accepted {
        return Err(Native), dispatched;
      }
      r := Ok(());
    }

    /** The second half, once the native side took the submit: the operation enters the table, whatever came before. */
    method RecordSubmit(op: nat, frame: nat)
      requires Valid()
      modifies this`frames, this`history
      ensures Valid()
      ensures history == old(history) + [Remember(op, frame)]
      ensures frames == old(frames)[op := frame]
    {
      hide Accounted, Traffic;
      ghost var past := history;
      Note(Remember(op, frame));
      TableAppend(past, [Remember(op, frame)]);
    }

    /** Removes every operation submitted under one frame, key by key. */
    method ForgetByFrame(frame: nat)
      requires frames == Table(history)
      modifies this`frames, this`history
      ensures frames == Table(history) && history == old(history) + [ForgetFrame(frame)]
      ensures frames == map op | op in old(frames) && old(frames)[op] != frame :: old(frames)[op]
    {
      ghost var was := frames;
      var left := frames.Keys;
      while left != {}
        invariant left <= was.Keys && history == old(history)
        invariant frames == map op | op in was && (op in left || was[op] != frame) :: was[op]
        decreases left
      {
        var op :| op in left;
        left := left - {op};
        if frames[op] == frame {
          frames := frames - {op};
        }
      }
      assert frames == Apply(was, ForgetFrame(frame));
      history := history + [ForgetFrame(frame)];
    }

    /** cancel. */
    method Cancel(frame: nat, accepted: bool) returns (r: Result<(), Failure>)
      requires Valid()
      modifies this`frames, this`history
      ensures Valid()
      ensures r.Ok? <==> !closed && accepted
      ensures history == if r.Ok? then old(history) + [ForgetFrame(frame)] else old(history)
      ensures r.Ok? ==> frames == map op | op in old(frames) && old(frames)[op] != frame :: old(frames)[op]
      ensures r.Err? ==> frames == old(frames)
    {
      if closed {
        return Err(InvalidState);
      }
      if !accepted {
        return Err(Native);
      }
      ForgetByFrame(frame);
      r := Ok(());
    }

    /** close: every operation leaves the table. A second close does nothing; a native refusal leaves all as it is. */
    method Close(accepted: bool) returns (r: Result<(), Failure>)
      requires Valid()
      modifies this`frames, this`history, this`closed
      ensures Valid()
      ensures r == if old(closed) || accepted then Ok(()) else Err(Native)
      ensures closed <==> r.Ok?
      ensures history == if !old(closed) && accepted then old(history) + [Clear] else old(history)
      ensures frames == if !old(closed) && accepted then map[] else old(frames)
    {
      hide Table, Accounted, Traffic;
      if closed {
        return Ok(());
      }
      if !accepted {
        return Err(Native);
      }
      Note(Clear);
      closed := true;
      r := Ok(());
    }

    /** `_operation_frame_id`: the submit frame of a live operation; any other operation is refused. */
    method OperationFrameId(op: nat) returns (r: Result<nat, Failure>)
      requires Booked()
      ensures r.Ok? ==> Live(history, op, r.value)
      ensures r.Err? ==> r.error == InvalidState && forall f :: !Live(history, op, f)
    {
      forall f
        ensures Live(history, op, f) <==> op in frames && frames[op] == f
      {
        TableIsLive(history, op, f);
      }
      r := if op in frames then Ok(frames[op]) else Err(InvalidState);
    }

    /** `_runtime_frame_id`. */
    method RuntimeFrameId(messageType: nat, op: Option<nat>) returns (r: Result<nat, Failure>)
      requires Booked()
      ensures op.None? ==> r == Ok(nextRuntimeFrameId)
      ensures op == Some(0) ==> r == if MayNameNone(messageType) then Ok(0) else Err(InvalidState)
      ensures op.Some? && op.value != 0 && r.Ok? ==> Live(history, op.value, r.value)
      ensures op.Some? && op.value != 0 && r.Err? ==>
                r.error == InvalidState && forall f :: !Live(history, op.value, f)
    {
      if op.None? {
        return Ok(nextRuntimeFrameId);
      }
      if op.value == 0 {
        return if MayNameNone(messageType) then Ok(0) else Err(InvalidState);
      }
      r := OperationFrameId(op.value);
    }

    /**
     * The first half of `_send_runtime_frame`, up to the native send: the frame id a control frame is sent under. An
     * operation-scoped frame carries the submit frame of its live operation or is refused, unless the caller passed a
     * frame id (the DEADLINE before a submit). No lock is held from here to the second half, so other threads may
     * poll, submit or send in between. `dispatched` is the point of the history at which the frame was sent.
     */
    method DispatchRuntimeFrame(messageType: nat, named: nat, frame: Option<nat>, accepted: bool)
      returns (r: Result<nat, Failure>, ghost dispatched: nat)
      requires Valid()
      ensures dispatched == |history|
      ensures closed ==> r == Err(InvalidState)
      ensures r.Ok? ==>
                var op := RuntimeOperationId(messageType, named);
                && !closed && accepted
                && (frame.Some? ==> r.value == frame.value)
                && (frame.None? && op.None? ==> r.value == nextRuntimeFrameId)
                && (frame.None? && op == Some(0) ==> r.value == 0 && MayNameNone(messageType))
                && (frame.None? && op.Some? && op.value != 0 ==> Live(history, op.value, r.value))
      ensures !closed && r == Err(InvalidState) ==>
                var op := RuntimeOperationId(messageType, named);
                && frame.None? && op.Some?
                && if op.value == 0 then !MayNameNone(messageType) else forall f :: !Live(history, op.value, f)
      ensures r.Err? ==> r.error == InvalidState || (r.error == Native && !accepted)
    {
      hide Table, Accounted;
      dispatched := |history|;
      if closed {
        return Err(InvalidState), dispatched;
      }
      var selected;
      if frame.None? {
        var id := RuntimeFrameId(messageType, RuntimeOperationId(messageType, named));
        if id.Err? {
          return id, dispatched;
        }
        selected := id.value;
      } else {
        selected := frame.value;
      }
      if !accepted {
        return Err(Native), dispatched;
      }
      r := Ok(selected);
    }

    /**
     * The second half, once the native side took the frame: a session-scoped frame moves the frame counter past the id
     * it was sent under, and CANCEL, ABORT or SUPERSEDE retires the operation, whatever submit is in the table by then.
     */
    method FinishRuntimeFrame(messageType: nat, named: nat, frame: Option<nat>, selected: nat)
      requires Valid()
      requires frame.None? && RuntimeOperationId(messageType, named).None? ==> 1 <= selected <= U32_MAX
      modifies this`frames, this`history, this`nextRuntimeFrameId
      ensures Valid()
      ensures nextRuntimeFrameId == if frame.None? && RuntimeOperationId(messageType, named).None?
                                    then if selected == 0xFFFF_FFFF then 1 else selected + 1
                                    else old(nextRuntimeFrameId)
      ensures history == old(history) +
                (if messageType in {CANCEL, ABORT, SUPERSEDE} && named != 0 then [Forget(named)] else [])
      ensures frames == if messageType in {0x30, 0x31, 0x35} && named != 0 then old(frames) - {named} else old(frames)
    {
      hide Table, Accounted;
      var op := RuntimeOperationId(messageType, named);
      if frame.None? && op.None? {
        nextRuntimeFrameId := if selected == U32_MAX then 1 else selected + 1;
      }
      if messageType in {CANCEL, ABORT, SUPERSEDE} && op.Some? && op.value != 0 {
        Note(Forget(op.value));
      }
    }

    /** `_allocate_control_sequence`. */
    method AllocateControlSequence() returns (n: nat)
      requires Valid()
      modifies this`nextControlSequence
      ensures Valid() && n == old(nextControlSequence) && 1 <= n <= U64_MAX
      ensures nextControlSequence == if n == 0xFFFF_FFFF_FFFF_FFFF then 1 else n + 1
    {
      n := nextControlSequence;
      nextControlSequence := if n == U64_MAX then 1 else n + 1;
    }
  }

  /**
   * An operation with no submit after one of its retiring events is refused; one whose latest submit was followed
   * by no retiring event keeps that submit's frame id.
   */
  lemma RetiredUntilResubmitted(history: seq<Entry>, op: nat, i: nat)
    requires i < |history|
    requires forall j :: i < j < |history| ==> !(history[j].Remember? && history[j].op == op)
    ensures history[i] in {Forget(op), Clear} ==> op !in Table(history)
    ensures history[i].Remember? && history[i].op == op ==>
              (op in Table(history) <==>
               forall j :: i < j < |history| ==> !Retires(history[j], op, history[i].frame))
  {
    if op in Table(history) {
      TableIsLive(history, op, Table(history)[op]);
      var k: nat :| LiveSince(history, op, Table(history)[op], k);
      assert k <= i;
    }
    if history[i].Remember? && history[i].op == op {
      TableIsLive(history, op, history[i].frame);
      if forall j :: i < j < |history| ==> !Retires(history[j], op, history[i].frame) {
        assert LiveSince(history, op, history[i].frame, i);
      }
    }
  }

  /** Between `from` and the end of a history, something retired an operation submitted under a frame. */
  ghost predicate RetiredSince(history: seq<Entry>, from: nat, op: nat, frame: nat) {
    exists j :: from <= j < |history| && Retires(history[j], op, frame)
  }

  /**
   * A submit dispatched at `dispatched` and recorded after `before` leaves a stale entry, an operation in the table
   * that was retired since it was dispatched, exactly when what retired it came before the record and nothing retired
   * it after. Such an entry stays until a later event retires it.
   */
  lemma StaleIff(before: seq<Entry>, dispatched: nat, op: nat, frame: nat, more: seq<Entry>)
    requires dispatched <= |before|
    requires forall j :: 0 <= j < |more| ==> !(more[j].Remember? && more[j].op == op)
    ensures var history := before + [Remember(op, frame)] + more;
            && (op in Table(history) <==> !RetiredSince(more, 0, op, frame))
            && (op in Table(history) && RetiredSince(history, dispatched, op, frame) <==>
                RetiredSince(before, dispatched, op, frame) && !RetiredSince(more, 0, op, frame))
  {
    hide Table;
    var history, at := before + [Remember(op, frame)] + more, |before|;
    assert forall j :: 0 <= j < |before| ==> history[j] == before[j];
    assert history[at] == Remember(op, frame);
    assert forall j :: 0 <= j < |more| ==> history[at + 1 + j] == more[j];
    assert forall j :: at < j < |history| ==> history[j] == more[j - at - 1];
    RetiredUntilResubmitted(history, op, at);
    if RetiredSince(before, dispatched, op, frame) {
      var j :| dispatched <= j < |before| && Retires(before[j], op, frame);
      assert Retires(history[j], op, frame);
    }
    if RetiredSince(more, 0, op, frame) {
      var j :| 0 <= j < |more| && Retires(more[j], op, frame);
      assert Retires(history[at + 1 + j], op, frame);
    }
  }

  /** A submit of `op` under `frame`, recorded at or after `from`, is live. */
  ghost predicate LiveFrom(history: seq<Entry>, from: nat, op: nat, frame: nat) {
    exists i: nat :: from <= i && LiveSince(history, op, frame, i)
  }

  ghost predicate Resubmitted(history: seq<Entry>, op: nat) {
    exists j :: 0 <= j < |history| && history[j].Remember? && history[j].op == op
  }

  /** A live submit stays live while nothing later retires it or submits the operation again. */
  lemma LiveCut(before: seq<Entry>, more: seq<Entry>, op: nat, frame: nat, i: nat)
    requires i < |before|
    ensures LiveSince(before + more, op, frame, i) <==>
            LiveSince(before, op, frame, i) && !RetiredSince(more, 0, op, frame) && !Resubmitted(more, op)
  {
    var all := before + more;
    assert forall j :: 0 <= j < |before| ==> all[j] == before[j];
    assert forall j :: 0 <= j < |more| ==> more[j] == all[|before| + j];
  }

  lemma LiveTail(before: seq<Entry>, more: seq<Entry>, op: nat, frame: nat, i: nat)
    ensures LiveSince(before + more, op, frame, |before| + i) <==> LiveSince(more, op, frame, i)
  {
    var all := before + more;
    assert forall j :: 0 <= j < |more| ==> more[j] == all[|before| + j];
    assert forall j :: |before| <= j < |all| ==> all[j] == more[j - |before|];
  }

  /** When entry `e` retires the one live submit of `op`, only a later submit brings the operation back. */
  lemma GoneUnlessResubmitted(before: seq<Entry>, e: Entry, op: nat, frame: nat, i: nat, more: seq<Entry>)
    requires Retires(e, op, frame) && LiveSince(before, op, frame, i) && !Resubmitted(more, op)
    ensures op !in Table(before + [e] + more)
  {
    hide Table, LiveSince;
    var front := before + [e];
    if op in Table(front + more) {
      var other := Table(front + more)[op];
      TableIsLive(front + more, op, other);
      var k: nat :| LiveSince(front + more, op, other, k);
      LastSubmit(before, e, more, op, frame, i, other, k);
      assert false;
    }
  }

  lemma LastSubmit(
    before: seq<Entry>, e: Entry, more: seq<Entry>, op: nat, frame: nat, i: nat, other: nat, k: nat)
    requires Retires(e, op, frame) && LiveSince(before, op, frame, i) && !Resubmitted(more, op)
    ensures !LiveSince(before + [e] + more, op, other, k)
  {
    var front, all := before + [e], before + [e] + more;
    assert all[|before|] == e;
    assert forall j :: 0 <= j < |before| ==> all[j] == before[j];
    assert forall j :: 0 <= j < |more| ==> more[j] == all[|front| + j];
    assert forall j :: |front| <= j < |all| ==> all[j] == more[j - |front|];
  }

  /**
   * Retiring entry `e` belongs to something sent at `sent` and is made after `before`. It loses an operation, one whose
   * submit was recorded since and would be live without `e`, exactly when that submit was live just before `e`, and
   * nothing retired or submitted the operation again after it.
   */
  lemma LostIff(before: seq<Entry>, sent: nat, e: Entry, op: nat, frame: nat, more: seq<Entry>)
    requires Retires(e, op, frame)
    ensures LiveFrom(before + more, sent, op, frame) && op !in Table(before + [e] + more) <==>
            LiveFrom(before, sent, op, frame) && !RetiredSince(more, 0, op, frame) && !Resubmitted(more, op)
  {
    hide Table, LiveSince, RetiredSince, Resubmitted;
    if LiveFrom(before + more, sent, op, frame) && op !in Table(before + [e] + more) {
      var i: nat :| sent <= i && LiveSince(before + more, op, frame, i);
      if i < |before| {
        LiveCut(before, more, op, frame, i);
      } else {
        LiveTail(before, more, op, frame, i - |before|);
        LiveTail(before + [e], more, op, frame, i - |before|);
        TableIsLive(before + [e] + more, op, frame);
        assert false;
      }
    }
    if LiveFrom(before, sent, op, frame) && !RetiredSince(more, 0, op, frame) && !Resubmitted(more, op) {
      var i: nat :| sent <= i && LiveSince(before, op, frame, i);
      InRange(before, op, frame, i);
      LiveCut(before, more, op, frame, i);
      GoneUnlessResubmitted(before, e, op, frame, i, more);
    }
  }

  lemma InRange(history: seq<Entry>, op: nat, frame: nat, i: nat)
    requires LiveSince(history, op, frame, i)
    ensures i < |history|
  {
  }

  /** An input of the stale kind: the operation is over before its submit is recorded. */
  lemma StaleEntry()
    ensures var history := Noted([DONE], 1) + [Remember(7, 3)];
            7 in Table(history) && RetiredSince(history, 0, 7, 3)
  {
    var before, history := Noted([DONE], 1), Noted([DONE], 1) + [Remember(7, 3)];
    NotedNext([], DONE, 1);
    assert [DONE] == [] + [DONE] && before == [Forget(7)];
    assert Retires(before[0], 7, 3) && RetiredSince(before, 0, 7, 3);
    StaleIff(before, 0, 7, 3, []);
    assert history + [] == history;
  }

  const DONE := Lifecycle(EVENT_KIND_OPERATION_LIFECYCLE, 1, 7, Completed)

  /** What is delivered of a run of one event, and what it does to the table. */
  lemma OnlyEvent(p: Pump<Event>, a: Arrival<Event>)
    requires Accounted(Traffic([DONE]), p) && p.delivered == [a]
    ensures p.pulled == 1 && a == Arrival(0, DONE)
    ensures Noted([DONE][0..1], 1) == [Forget(7)]
  {
    hide Without;
    var t := Traffic([DONE]);
    assert a in t[..p.pulled];
    assert |t| == 1 && t[0] == Arrival(0, DONE);
    NotedNext([], DONE, 1);
    assert [DONE][0..1] == [] + [DONE];
    assert Noted([], 1) == [];
    assert NotedOne(DONE, 1) == [Forget(7)];
  }

  /** A COMPLETED record that comes in while a submit is under way leaves the operation in the table. */
  method StaleRun() returns (s: NativeRuntimeSession, got: Option<Arrival<Event>>)
    ensures s.Valid() && s.wire == [DONE]
    ensures got.Some? ==> s.delivered == [Arrival(0, DONE)] && IsResult(DONE)
    ensures got.Some? ==> 7 in s.frames && RetiredSince(s.history, 0, 7, 3)
  {
    hide Accounted, Traffic, Noted, Table, Receive;
    s := new NativeRuntimeSession(1, [DONE]);
    var submitted, dispatched := s.DispatchSubmit(7, 7, true);
    var event := s.AwaitEvent();
    got := event.value;
    if got.Some? {
      assert s.delivered == [got.value];
      OnlyEvent(s.State(), got.value);
    }
    s.RecordSubmit(7, 3);
    if got.Some? {
      assert s.history == [Forget(7)] + [Remember(7, 3)];
      assert Retires(s.history[0], 7, 3);
    }
  }

  /** A submit recorded while a CANCEL of the same operation is under way is lost from the table. */
  method LostRun() returns (s: NativeRuntimeSession)
    ensures s.Valid() && s.history == [Remember(7, 3)] + [Remember(7, 4)] + [Forget(7)]
    ensures 7 !in s.frames && LiveFrom([Remember(7, 3), Remember(7, 4)], 1, 7, 4)
  {
    hide Accounted, Traffic, Table;
    s := new NativeRuntimeSession(1, []);
    s.RecordSubmit(7, 3);
    var cancelled, sent := s.DispatchRuntimeFrame(CANCEL, 7, None, true);
    s.RecordSubmit(7, 4);
    s.FinishRuntimeFrame(CANCEL, 7, None, 3);
    var before := [Remember(7, 3), Remember(7, 4)];
    assert LiveSince(before, 7, 4, 1);
    assert before + [] == before && before + [Forget(7)] + [] == s.history;
    LostIff(before, 1, Forget(7), 7, 4, []);
  }

  /** Over every run of the receivers, pulled events are exactly delivered plus pending, pending in wire order. */
  lemma PumpAccounts(wire: seq<Event>, receipts: seq<Receipt<Event>>, p: Pump<Event>)
    requires Runs(Traffic(wire), receipts, p)
    ensures Accounted(Traffic(wire), p)
  {
    StampedDistinct(wire);
    RunAccounted(Traffic(wire), receipts, p);
  }

  /** With receivers that choose by event kind only, the events of each kind are delivered in wire order, no gaps. */
  lemma KindsInOrder(wire: seq<Event>, receipts: seq<Receipt<Event>>, p: Pump<Event>, kind: nat)
    requires Runs(Traffic(wire), receipts, p)
    requires forall r :: r in receipts ==> exists k :: r.want == OfEventKind(k)
    ensures p.pulled <= |wire|
    ensures var want := OfEventKind(Some(kind));
            Filter(p.delivered, want) + Filter(p.pending, want) == Filter(Traffic(wire)[..p.pulled], want)
  {
    var want := OfEventKind(Some(kind));
    forall r | r in receipts
      ensures Alike(r.want, want)
    {
      var k :| r.want == OfEventKind(k);
      if k.None? || k.value == kind {
        assert forall x :: want(x) ==> r.want(x);
      } else {
        assert forall x :: want(x) ==> !r.want(x);
      }
    }
    RunKeepsOrder(Traffic(wire), receipts, p, want);
  }
}
