/** The server session's event pump (src/nnrp/native.py:5631-5800). */
module ServerSession {
  import opened Outcomes
  import opened Sequences
  import opened NativeEvents
  import opened Ledger
  import opened FrameTable

  /** The reply capability of one submit; `number` tells operation objects apart. */
  datatype Operation = Operation(number: nat, id: nat, frame: nat, submit: Event)

  datatype ServerEvent = Submit(operation: Operation) | Frame(frame: Event) | Record(record: Event)

  /** `Native` is a refusal by the native side. */
  datatype Failure = WouldBlock | InvalidState | Native

  function Submits(events: seq<Event>): nat {
    if events == [] then 0
    else Submits(events[..|events| - 1]) + if IsSubmit(events[|events| - 1]) then 1 else 0
  }

  function Expose(e: Event, number: nat): ServerEvent {
    if IsSubmit(e) then Submit(Operation(number, e.named, e.frame, e))
    else if e.Runtime? then Frame(e)
    else Record(e)
  }

  /** What the application can ever see of a run: each submit is one operation, the k-th submit the k-th operation. */
  function Exposed(wire: seq<Event>): seq<ServerEvent> {
    seq(|wire|, i requires 0 <= i < |wire| => Expose(wire[i], Submits(wire[..i])))
  }

  function Traffic(wire: seq<Event>): (t: seq<Arrival<ServerEvent>>)
    ensures |t| == |wire|
  {
    Stamped(Exposed(wire))
  }

  /** The submits among the first `n` events, by type number. */
  lemma {:induction false} SubmitsCounted(wire: seq<Event>, n: nat)
    requires n <= |wire|
    ensures Submits(wire[..n]) == |set j | 0 <= j < n && wire[j].Runtime? && wire[j].messageType == 0x10|
  {
    var before := set j | 0 <= j < n && wire[j].Runtime? && wire[j].messageType == 0x10;
    if n == 0 {
      assert before == {};
    } else {
      SubmitsCounted(wire, n - 1);
      assert wire[..n][..n - 1] == wire[..n - 1];
      var earlier := set j | 0 <= j < n - 1 && wire[j].Runtime? && wire[j].messageType == 0x10;
      if wire[n - 1].Runtime? && wire[n - 1].messageType == 0x10 {
        assert before == earlier + {n - 1};
      } else {
        assert before == earlier;
      }
    }
  }

  predicate SubmitAt(wire: seq<Event>, i: nat) {
    i < |wire| && wire[i].Runtime? && wire[i].messageType == 0x10
  }

  predicate FrameAt(wire: seq<Event>, i: nat) {
    i < |wire| && wire[i].Runtime? && wire[i].messageType != 0x10
  }

  predicate RecordAt(wire: seq<Event>, i: nat) {
    i < |wire| && wire[i].Lifecycle?
  }

  /**
   * What an arrival tells of the event at its place: a submit (type 0x10) as an operation with the id and frame of the
   * submit and the number of submits before it, any other runtime frame as it is, a lifecycle record as it is.
   */
  ghost predicate Tells(a: Arrival<ServerEvent>, wire: seq<Event>) {
    && (SubmitAt(wire, a.place) || FrameAt(wire, a.place) || RecordAt(wire, a.place))
    && (SubmitAt(wire, a.place) ==>
          && a.event.Submit? && a.event.operation.submit == wire[a.place]
          && a.event.operation.id == wire[a.place].named && a.event.operation.frame == wire[a.place].frame
          && a.event.operation.number == |set j | 0 <= j < a.place && SubmitAt(wire, j)|)
    && (FrameAt(wire, a.place) ==> a.event == Frame(wire[a.place]))
    && (RecordAt(wire, a.place) ==> a.event == Record(wire[a.place]))
  }

  lemma TrafficTells(wire: seq<Event>, i: nat)
    requires i < |wire|
    ensures Traffic(wire)[i].place == i && Tells(Traffic(wire)[i], wire)
    ensures SubmitsOnly(Traffic(wire)[i]) <==> SubmitAt(wire, i)
    ensures FramesOnly(Traffic(wire)[i]) <==> FrameAt(wire, i)
    ensures RecordsOnly(Traffic(wire)[i]) <==> RecordAt(wire, i)
  {
    SubmitsCounted(wire, i);
    assert (set j | 0 <= j < i && SubmitAt(wire, j))
        == (set j | 0 <= j < i && wire[j].Runtime? && wire[j].messageType == 0x10);
  }

  lemma ToldOnce(wire: seq<Event>, a: Arrival<ServerEvent>)
    requires a.place < |wire| && Tells(a, wire)
    ensures a == Traffic(wire)[a.place]
  {
    TrafficTells(wire, a.place);
  }

  lemma TrafficGrows(wire: seq<Event>, from: nat, to: nat)
    requires from <= to < |wire|
    ensures Traffic(wire)[from..to + 1] ==
            Traffic(wire)[from..to] + [Arrival(to, Expose(wire[to], Submits(wire[..to])))]
    ensures Submits(wire[..to + 1]) == Submits(wire[..to]) + if IsSubmit(wire[to]) then 1 else 0
    ensures Noted(wire[from..to + 1]) == Noted(wire[from..to]) + NotedOne(wire[to])
  {
    hide NotedOne, Expose;
    assert wire[..to + 1][..to] == wire[..to];
    hide Submits;
    assert wire[from..to + 1] == wire[from..to] + [wire[to]];
    hide Noted;
    NotedNext(wire[from..to], wire[to]);
  }

  /** The frame-table entries that pulling events makes. */
  function Noted(events: seq<Event>): seq<Entry> {
    if events == [] then []
    else
      var last := events[|events| - 1];
      Noted(events[..|events| - 1]) + NotedOne(last)
  }

  function NotedOne(e: Event): seq<Entry> {
    if IsSubmit(e) then [Remember(e.named, e.frame)]
    else if ClosesSession(e) then [Clear] else []
  }

  predicate Anything(a: Arrival<ServerEvent>) {
    true
  }

  predicate SubmitsOnly(a: Arrival<ServerEvent>) {
    a.event.Submit?
  }

  predicate FramesOnly(a: Arrival<ServerEvent>) {
    a.event.Frame?
  }

  predicate RecordsOnly(a: Arrival<ServerEvent>) {
    a.event.Record?
  }

  lemma NotedNone(wire: seq<Event>, at: nat)
    requires at <= |wire|
    ensures Noted(wire[at..at]) == []
  {
  }

  lemma KeepsAccount(wire: seq<Event>, p: Pump<ServerEvent>, r: Receipt<ServerEvent>)
    requires Accounted(Traffic(wire), p) && p.pulled + r.pulls <= |wire|
    ensures Accounted(Traffic(wire), Receive(Traffic(wire), p, r))
  {
    StampedDistinct(Exposed(wire));
    ReceiveKeeps(Traffic(wire), p, r);
  }

  /** A receive of at most one event, with what it does to the account. */
  lemma TakesOne(wire: seq<Event>, p: Pump<ServerEvent>, want: Arrival<ServerEvent> -> bool, pulls: nat, i: nat)
    requires Accounted(Traffic(wire), p) && p.pulled + pulls <= |wire|
    requires var queue := p.pending + Traffic(wire)[p.pulled..p.pulled + pulls];
             i <= |queue| && (forall j :: 0 <= j < i ==> !want(queue[j])) && (i < |queue| ==> want(queue[i]))
    ensures var queue := p.pending + Traffic(wire)[p.pulled..p.pulled + pulls];
            Receive(Traffic(wire), p, Receipt(want, Some(1), pulls)) ==
            if i == |queue| then Pump(p.pulled + pulls, queue, p.delivered)
            else Pump(p.pulled + pulls, queue[..i] + queue[i + 1..], p.delivered + [queue[i]])
    ensures Accounted(Traffic(wire), Receive(Traffic(wire), p, Receipt(want, Some(1), pulls)))
  {
    ReceiveOne(Traffic(wire), p, want, pulls, i);
    KeepsAccount(wire, p, Receipt(want, Some(1), pulls));
  }

  /** What a receive hands over tells of the wire; with room left nothing wanted of the wire is held back. */
  lemma ReceivedTells(
    wire: seq<Event>, p: Pump<ServerEvent>, r: Receipt<ServerEvent>, taken: seq<Arrival<ServerEvent>>)
    requires Accounted(Traffic(wire), p) && p.pulled + r.pulls <= |wire|
    requires Receive(Traffic(wire), p, r).delivered == p.delivered + taken
    ensures forall a :: a in taken ==> r.want(a) && a.place < p.pulled + r.pulls && Tells(a, wire)
    ensures forall a :: a in taken ==>
              && (SubmitsOnly(a) <==> SubmitAt(wire, a.place)) && (FramesOnly(a) <==> FrameAt(wire, a.place))
              && (RecordsOnly(a) <==> RecordAt(wire, a.place))
    ensures Room(r.limit, |taken|) ==>
              forall a: Arrival<ServerEvent> :: a.place < p.pulled + r.pulls && Tells(a, wire) && r.want(a) ==>
                a in p.delivered + taken
  {
    var n := p.pulled + r.pulls;
    StampedDistinct(Exposed(wire));
    ReceivedWanted(Traffic(wire), p, r, taken);
    hide Traffic, Receive, Accounted, Tells, Room;
    forall a | a in taken
      ensures a.place < n && Tells(a, wire)
      ensures (SubmitsOnly(a) <==> SubmitAt(wire, a.place)) && (FramesOnly(a) <==> FrameAt(wire, a.place))
      ensures RecordsOnly(a) <==> RecordAt(wire, a.place)
    {
      var i :| 0 <= i < n && Traffic(wire)[..n][i] == a;
      TrafficTells(wire, i);
    }
    if Room(r.limit, |taken|) {
      forall a: Arrival<ServerEvent> | a.place < n && Tells(a, wire) && r.want(a)
        ensures a in p.delivered + taken
      {
        ToldOnce(wire, a);
        assert Traffic(wire)[..n][a.place] == a;
      }
    }
  }

  lemma ReceivedFrames(
    wire: seq<Event>, p: Pump<ServerEvent>, limit: Option<nat>, pulls: nat, taken: seq<Arrival<ServerEvent>>)
    requires Accounted(Traffic(wire), p) && p.pulled + pulls <= |wire|
    requires Receive(Traffic(wire), p, Receipt(FramesOnly, limit, pulls)).delivered == p.delivered + taken
    ensures forall a :: a in taken ==>
              a.place < p.pulled + pulls && FrameAt(wire, a.place) && a.event == Frame(wire[a.place])
    ensures Room(limit, |taken|) ==>
              forall i :: 0 <= i < p.pulled + pulls && FrameAt(wire, i) ==>
                Arrival(i, Frame(wire[i])) in p.delivered + taken
  {
    hide Traffic, Receive, Accounted, Room;
    ReceivedTells(wire, p, Receipt(FramesOnly, limit, pulls), taken);
    forall i | 0 <= i < p.pulled + pulls && FrameAt(wire, i)
      ensures Tells(Arrival(i, Frame(wire[i])), wire) && FramesOnly(Arrival(i, Frame(wire[i])))
    {
    }
  }

  lemma NotedNext(events: seq<Event>, e: Event)
    ensures Noted(events + [e]) == Noted(events) + NotedOne(e)
  {
    hide NotedOne;
    assert (events + [e])[..|events|] == events;
  }

  /** A receiver of anything takes the first event of its queue, if there is one. */
  lemma TakesFirst(wire: seq<Event>, p: Pump<ServerEvent>, pulls: nat, queue: seq<Arrival<ServerEvent>>)
    requires Accounted(Traffic(wire), p) && p.pulled + pulls <= |wire|
    requires queue == p.pending + Traffic(wire)[p.pulled..p.pulled + pulls]
    ensures Receive(Traffic(wire), p, Receipt(Anything, Some(1), pulls)) ==
            if queue == [] then Pump(p.pulled + pulls, [], p.delivered)
            else Pump(p.pulled + pulls, queue[1..], p.delivered + [queue[0]])
    ensures Accounted(Traffic(wire), Receive(Traffic(wire), p, Receipt(Anything, Some(1), pulls)))
  {
    hide Accounted, Receive, Traffic;
    TakesOne(wire, p, Anything, pulls, 0);
    assert queue != [] ==> queue[..0] + queue[1..] == queue[1..];
  }

  lemma {:induction false} NotedSplit(a: seq<Event>, b: seq<Event>)
    ensures Noted(a + b) == Noted(a) + Noted(b)
  {
    hide NotedOne;
    if b == [] {
      assert a + b == a;
    } else {
      hide Noted;
      var front, last := b[..|b| - 1], b[|b| - 1];
      NotedSplit(a, front);
      assert b == front + [last] && a + b == a + front + [last];
      NotedNext(a + front, last);
      NotedNext(front, last);
    }
  }

  /** What was noted while two runs of events were pulled, one after the other. */
  lemma NotedPulled(wire: seq<Event>, from: nat, at: nat, to: nat)
    requires from <= at <= to <= |wire|
    ensures Noted(wire[from..to]) == Noted(wire[from..at]) + Noted(wire[at..to])
    ensures Traffic(wire)[from..to] == Traffic(wire)[from..at] + Traffic(wire)[at..to]
  {
    hide Noted, Traffic;
    SliceJoin(wire, from, at, to);
    SliceJoin(Traffic(wire), from, at, to);
    NotedSplit(wire[from..at], wire[at..to]);
  }

  class NativeRuntimeServerSession {
    /** Every event the native side produces over the whole run; a poll takes the next few. */
    const wire: seq<Event>
    var pulled: nat
    var pending: seq<Arrival<ServerEvent>>
    var operations: nat
    var frames: map<nat, nat>
    var closed: bool
    ghost var delivered: seq<Arrival<ServerEvent>>
    ghost var history: seq<Entry>

    /** The account holds, and the operation count and the frame table follow from what was pulled and sent. */
    ghost predicate Valid()
      reads this
    {
      Accounted(Traffic(wire), State()) && Booked()
    }

    ghost predicate Booked()
      reads this
    {
      pulled <= |wire| && operations == Submits(wire[..pulled]) && frames == Table(history)
    }

    ghost function State(): Pump<ServerEvent>
      reads this
    {
      Pump(pulled, pending, delivered)
    }

    constructor (wire: seq<Event>)
      ensures Valid() && this.wire == wire && State() == Pump(0, [], []) && history == [] && !closed
    {
      this.wire := wire;
      pulled, pending, operations, frames, closed, delivered, history := 0, [], 0, map[], false, [], [];
      new;
      WithoutNone(Traffic(wire)[..0]);
    }

    /** `_server_event_from_polled`: what the application is shown of the next event, and what the session notes. */
    method WrapPolled() returns (a: Arrival<ServerEvent>)
      requires Booked() && pulled < |wire|
      modifies this`operations, this`frames, this`history
      ensures a == Arrival(pulled, Expose(wire[pulled], old(operations)))
      ensures operations == old(operations) + if IsSubmit(wire[pulled]) then 1 else 0
      ensures frames == Table(history) && history == old(history) + NotedOne(wire[pulled])
      ensures SubmitAt(wire, pulled) ==> frames == old(frames)[wire[pulled].named := wire[pulled].frame]
      ensures FrameAt(wire, pulled) && wire[pulled].messageType == 0x09 ==> frames == map[]
      ensures (FrameAt(wire, pulled) && wire[pulled].messageType != 0x09) || RecordAt(wire, pulled) ==>
                frames == old(frames)
    {
      var event := wire[pulled];
      a := Arrival(pulled, Expose(event, operations));
      assert history + [] == history;
      if IsSubmit(event) {
        operations := operations + 1;
        Note(Remember(event.named, event.frame));
      } else if ClosesSession(event) {
        Note(Clear);
      }
    }

    /**
     * One native poll and the wrapping of its events. The native side may hold back any number of events, even
     * when some are due.
     */
    method PollNative(maxEvents: nat) returns (batch: seq<Arrival<ServerEvent>>)
      requires Booked()
      modifies this`pulled, this`operations, this`frames, this`history
      ensures old(pulled) <= pulled <= |wire| && pulled - old(pulled) <= maxEvents
      ensures batch == Traffic(wire)[old(pulled)..pulled]
      ensures forall k :: 0 <= k < |batch| ==> batch[k].place == old(pulled) + k && Tells(batch[k], wire)
      ensures Booked() && history == old(history) + Noted(wire[old(pulled)..pulled])
    {
      hide Traffic, Submits, Table, Noted, Tells, Expose, NotedOne;
      var count: nat :| count <= maxEvents && pulled + count <= |wire|;
      batch := [];
      var start := pulled;
      ghost var past := history;
      NotedNone(wire, start);
      while pulled < start + count
        invariant start <= pulled <= start + count
        invariant batch == Traffic(wire)[start..pulled]
        invariant forall k :: 0 <= k < |batch| ==> batch[k].place == start + k && Tells(batch[k], wire)
        invariant Booked() && history == past + Noted(wire[start..pulled])
      {
        TrafficGrows(wire, start, pulled);
        TrafficTells(wire, pulled);
        var a := WrapPolled();
        batch := batch + [a];
        pulled := pulled + 1;
      }
    }

    method Note(e: Entry)
      requires frames == Table(history)
      modifies this`frames, this`history
      ensures frames == Table(history) && history == old(history) + [e]
      ensures frames == Apply(old(frames), e)
    {
      frames := Apply(frames, e);
      history := history + [e];
    }

    /** Hands the event at one place of the queue over. */
    method TakePending(index: nat) returns (a: Arrival<ServerEvent>)
      requires index < |pending|
      modifies this`pending, this`delivered
      ensures a == old(pending)[index] && delivered == old(delivered) + [a]
      ensures pending == old(pending)[..index] + old(pending)[index + 1..]
    {
      a := pending[index];
      pending := pending[..index] + pending[index + 1..];
      delivered := delivered + [a];
    }

    /** Polls once more and appends what came to the queue. */
    method Gather(maxEvents: nat, ghost was: Pump<ServerEvent>, ghost past: seq<Entry>)
      requires Booked() && Gathered(was, past)
      modifies this`pulled, this`operations, this`frames, this`history, this`pending
      ensures Booked() && Gathered(was, past)
      ensures old(pulled) <= pulled <= old(pulled) + maxEvents
    {
      hide Traffic, Submits, Table, Noted, Accounted, Receive;
      var batch := PollNative(maxEvents);
      pending := pending + batch;
      NotedPulled(wire, was.pulled, old(pulled), pulled);
    }

    /** Since `was`, events were only pulled and queued. */
    ghost predicate Gathered(was: Pump<ServerEvent>, past: seq<Entry>)
      reads this
    {
      && was.pulled <= pulled <= |wire|
      && State() == Pump(pulled, was.pending + Traffic(wire)[was.pulled..pulled], was.delivered)
      && history == past + Noted(wire[was.pulled..pulled])
    }

    /**
     * next_event. `patience` is the number of empty polls the deadline still allows. The earliest undelivered
     * event is returned, and polling happens only when none is pending.
     */
    method NextEvent(patience: nat) returns (r: Result<Arrival<ServerEvent>, Failure>)
      requires Valid()
      modifies this`pulled, this`operations, this`frames, this`history, this`pending, this`delivered
      ensures Valid()
      ensures closed ==> r == Err(InvalidState) && State() == old(State()) && history == old(history)
      ensures !closed ==>
                && old(pulled) <= pulled
                && State() == Receive(Traffic(wire), old(State()), Receipt(Anything, Some(1), pulled - old(pulled)))
                && history == old(history) + Noted(wire[old(pulled)..pulled])
                && match r {
                     case Ok(a) => delivered == old(delivered) + [a] && a.place < pulled && Tells(a, wire)
                     case Err(e) => e == WouldBlock && delivered == old(delivered) && pending == []
                   }
      ensures !closed && old(pending) != [] ==> pulled == old(pulled) && r == Ok(old(pending)[0])
    {
      hide Traffic, Submits, Table, Noted, Accounted, Receive, Tells;
      if closed {
        return Err(InvalidState);
      }
      ghost var was, past := State(), history;
      NotedNone(wire, pulled);
      assert pending + Traffic(wire)[pulled..pulled] == pending;
      var left := patience;
      while pending == []
        invariant Booked() && Gathered(was, past)
        invariant was.pending != [] ==> pulled == was.pulled
        decreases left, pending == []
      {
        Gather(1, was, past);
        if pending == [] {
          if left == 0 {
            TakesFirst(wire, was, pulled - was.pulled, pending);
            return Err(WouldBlock);
          }
          left := left - 1;
        }
      }
      TakesFirst(wire, was, pulled - was.pulled, pending);
      assert pending[..0] + pending[1..] == pending[1..];
      var a := TakePending(0);
      ReceivedTells(wire, was, Receipt(Anything, Some(1), pulled - was.pulled), [a]);
      r := Ok(a);
    }

    /** The first submit in the queue, removed from it. */
    method TakePendingSubmit() returns (r: Option<Arrival<ServerEvent>>)
      modifies this`pending, this`delivered
      ensures pending == Retain(old(pending), SubmitsOnly, Some(1))
      ensures Select(old(pending), SubmitsOnly, Some(1)) == if r.Some? then [r.value] else []
      ensures r.None? ==> pending == old(pending) && delivered == old(delivered)
      ensures r.Some? ==> SubmitsOnly(r.value) && delivered == old(delivered) + [r.value]
    {
      hide Select, Retain;
      for index := 0 to |pending|
        invariant pending == old(pending) && delivered == old(delivered)
        invariant forall j :: 0 <= j < index ==> !SubmitsOnly(pending[j])
      {
        if pending[index].event.Submit? {
          SelectOne(pending, SubmitsOnly, index);
          var a := TakePending(index);
          return Some(a);
        }
      }
      SelectOne(pending, SubmitsOnly, |pending|);
      r := None;
    }

    /**
     * receive_submit. The earliest undelivered submit is returned; every event skipped on the way stays in the
     * same queue, in order.
     */
    method ReceiveSubmit(patience: nat) returns (r: Result<Arrival<ServerEvent>, Failure>)
      requires Valid()
      modifies this`pulled, this`operations, this`frames, this`history, this`pending, this`delivered
      ensures Valid()
      ensures closed ==> r == Err(InvalidState) && State() == old(State()) && history == old(history)
      ensures !closed ==>
                && old(pulled) <= pulled
                && State() == Receive(Traffic(wire), old(State()), Receipt(SubmitsOnly, Some(1), pulled - old(pulled)))
                && history == old(history) + Noted(wire[old(pulled)..pulled])
                && match r {
                     case Ok(a) =>
                       && a.event.Submit? && delivered == old(delivered) + [a]
                       && a.place < pulled && SubmitAt(wire, a.place) && Tells(a, wire)
                     case Err(e) =>
                       && e == WouldBlock && delivered == old(delivered)
                       && forall a: Arrival<ServerEvent> ::
                            a.place < pulled && SubmitAt(wire, a.place) && Tells(a, wire) ==> a in delivered
                   }
    {
      hide Traffic, Submits, Table, Noted, Accounted, Select, Retain;
      if closed {
        return Err(InvalidState);
      }
      ghost var was, past := State(), history;
      NotedNone(wire, pulled);
      assert pending + Traffic(wire)[pulled..pulled] == pending;
      var left := patience;
      ghost var queue := pending;
      var taken := TakePendingSubmit();
      while taken.None?
        invariant was.pulled <= pulled <= |wire| && Booked()
        invariant queue == was.pending + Traffic(wire)[was.pulled..pulled]
        invariant history == past + Noted(wire[was.pulled..pulled])
        invariant pending == Retain(queue, SubmitsOnly, Some(1))
        invariant Select(queue, SubmitsOnly, Some(1)) == if taken.Some? then [taken.value] else []
        invariant taken.None? ==> pending == queue && delivered == was.delivered
        invariant taken.Some? ==> SubmitsOnly(taken.value) && delivered == was.delivered + [taken.value]
        decreases left, taken.None?
      {
        Gather(64, was, past);
        queue := pending;
        taken := TakePendingSubmit();
        if taken.None? {
          if left == 0 {
            KeepsAccount(wire, was, Receipt(SubmitsOnly, Some(1), pulled - was.pulled));
            assert was.delivered + [] == was.delivered;
            ReceivedTells(wire, was, Receipt(SubmitsOnly, Some(1), pulled - was.pulled), []);
            return Err(WouldBlock);
          }
          left := left - 1;
        }
      }
      KeepsAccount(wire, was, Receipt(SubmitsOnly, Some(1), pulled - was.pulled));
      ReceivedTells(wire, was, Receipt(SubmitsOnly, Some(1), pulled - was.pulled), [taken.value]);
      r := Ok(taken.value);
    }

    /** poll_events: up to `maxEvents` of the undelivered events, earliest first. */
    method PollEvents(maxEvents: nat) returns (r: Result<seq<Arrival<ServerEvent>>, Failure>)
      requires Valid()
      modifies this`pulled, this`operations, this`frames, this`history, this`pending, this`delivered
      ensures Valid()
      ensures closed ==> r == Err(InvalidState) && State() == old(State()) && history == old(history)
      ensures !closed ==>
                && r.Ok? && old(pulled) <= pulled <= old(pulled) + maxEvents
                && State() == Receive(Traffic(wire), old(State()),
                                      Receipt(Anything, Some(maxEvents), pulled - old(pulled)))
                && delivered == old(delivered) + r.value
                && history == old(history) + Noted(wire[old(pulled)..pulled])
                && |r.value| <= maxEvents
                && (forall a :: a in r.value ==> a.place < pulled && Tells(a, wire))
      ensures |old(pending)| >= maxEvents ==> pulled == old(pulled)
    {
      hide Traffic, Submits, Table, Noted, Accounted, Select, Retain, Tells;
      if closed {
        return Err(InvalidState);
      }
      ghost var was := State();
      ghost var traffic := Traffic(wire);
      NotedNone(wire, pulled);
      if maxEvents == 0 {
        SelectAll(pending + traffic[pulled..pulled], Anything, 0);
        assert pending + traffic[pulled..pulled] == pending;
        return Ok([]);
      }
      var count := if |pending| <= maxEvents then |pending| else maxEvents;
      var events := pending[..count];
      pending := pending[count..];
      var remaining := maxEvents - |events|;
      if remaining > 0 {
        var batch := PollNative(remaining);
        events := events + batch;
      }
      delivered := delivered + events;
      ghost var queue := was.pending + traffic[was.pulled..pulled];
      SelectAll(queue, Anything, maxEvents);
      assert remaining > 0 ==> events == queue && pending == [];
      assert remaining == 0 ==> queue == was.pending;
      assert State() == Receive(traffic, was, Receipt(Anything, Some(maxEvents), pulled - was.pulled));
      KeepsAccount(wire, was, Receipt(Anything, Some(maxEvents), pulled - was.pulled));
      ReceivedTells(wire, was, Receipt(Anything, Some(maxEvents), pulled - was.pulled), events);
      r := Ok(events);
    }

    /**
     * poll_runtime_frames: up to `maxEvents` of the undelivered runtime frames that are not submits, earliest
     * first; everything else stays queued. Unlike the other receivers it does not ask whether the session is open.
     */
    method PollRuntimeFrames(maxEvents: nat) returns (got: seq<Arrival<ServerEvent>>)
      requires Valid()
      modifies this`pulled, this`operations, this`frames, this`history, this`pending, this`delivered
      ensures Valid() && old(pulled) <= pulled
      ensures State() == Receive(Traffic(wire), old(State()),
                                 Receipt(FramesOnly, Some(maxEvents), pulled - old(pulled)))
      ensures delivered == old(delivered) + got
      ensures history == old(history) + Noted(wire[old(pulled)..pulled])
      ensures |got| <= maxEvents
      ensures forall a :: a in got ==> a.place < pulled && FrameAt(wire, a.place) && a.event == Frame(wire[a.place])
      ensures |got| < maxEvents ==>
                forall i :: 0 <= i < pulled && FrameAt(wire, i) ==> Arrival(i, Frame(wire[i])) in delivered
      ensures |got| == maxEvents > 0 && pulled > old(pulled) ==>
                |Select(old(pending), FramesOnly, Some(maxEvents))| < maxEvents
    {
      hide Traffic, Submits, Table, Noted, Accounted, Select, Retain;
      ghost var was := State();
      ghost var traffic := Traffic(wire);
      ghost var past := history;
      assert was.pending + traffic[was.pulled..was.pulled] == was.pending;
      NotedNone(wire, pulled);
      got := [];
      if maxEvents == 0 {
        SelectZero(was.pending, FramesOnly);
        return;
      }
      var retained := [];
      SelectNone(FramesOnly, Some(maxEvents));
      for i := 0 to |pending|
        invariant State() == was && Booked() && history == past
        invariant got == Select(was.pending[..i], FramesOnly, Some(maxEvents))
        invariant retained == Retain(was.pending[..i], FramesOnly, Some(maxEvents))
      {
        SelectNext(was.pending[..i], was.pending[i], FramesOnly, Some(maxEvents));
        assert was.pending[..i + 1] == was.pending[..i] + [was.pending[i]];
        if pending[i].event.Frame? && |got| < maxEvents {
          got := got + [pending[i]];
        } else {
          retained := retained + [pending[i]];
        }
      }
      assert was.pending[..|was.pending|] == was.pending;
      pending := retained;
      if |got| < maxEvents {
        var batch := PollNative(if maxEvents - |got| < 64 then 64 else maxEvents - |got|);
        assert was.pending + batch[..0] == was.pending;
        for i := 0 to |batch|
          invariant delivered == was.delivered && Booked()
          invariant was.pulled <= pulled && batch == traffic[was.pulled..pulled]
          invariant history == past + Noted(wire[was.pulled..pulled])
          invariant got == Select(was.pending + batch[..i], FramesOnly, Some(maxEvents))
          invariant pending == Retain(was.pending + batch[..i], FramesOnly, Some(maxEvents))
        {
          SelectNext(was.pending + batch[..i], batch[i], FramesOnly, Some(maxEvents));
          assert was.pending + batch[..i + 1] == (was.pending + batch[..i]) + [batch[i]];
          if batch[i].event.Frame? && |got| < maxEvents {
            got := got + [batch[i]];
          } else {
            pending := pending + [batch[i]];
          }
        }
        assert batch[..|batch|] == batch;
      }
      delivered := delivered + got;
      KeepsAccount(wire, was, Receipt(FramesOnly, Some(maxEvents), pulled - was.pulled));
      SelectWithin(was.pending + traffic[was.pulled..pulled], FramesOnly, Some(maxEvents));
      ReceivedFrames(wire, was, Some(maxEvents), pulled - was.pulled, got);
    }

    /** A terminal reply succeeded: the operation leaves the table. */
    method ForgetOperation(id: nat)
      requires Valid()
      modifies this`frames, this`history
      ensures Valid() && history == old(history) + [Forget(id)]
      ensures frames == old(frames) - {id}
    {
      Note(Forget(id));
      TableAppend(old(history), [Forget(id)]);
    }

    /** close: every operation leaves the table. A second close does nothing; a native refusal leaves all as it is. */
    method Close(accepted: bool) returns (r: Result<(), Failure>)
      requires Valid()
      modifies this`frames, this`history, this`closed
      ensures Valid()
      ensures r == if old(closed) || accepted then Ok(()) else Err(Native)
      ensures closed <==> r.Ok?
      ensures history == if !old(closed) && accepted then old(history) + [Clear] else old(history)
      ensures frames == if !old(closed) && accepted then map[] else old(frames)
    {
      if closed {
        return Ok(());
      }
      if !accepted {
        return Err(Native);
      }
      Note(Clear);
      closed := true;
      r := Ok(());
    }

    /** send_trace_context: frame id zero for the session, else the submit frame of a live operation, else refused. */
    method TraceContextFrame(id: Option<nat>) returns (r: Result<nat, Failure>)
      requires Valid()
      ensures id.None? ==> r == Ok(0)
      ensures id.Some? && r.Ok? ==> Live(history, id.value, r.value)
      ensures id.Some? && r.Err? ==> r.error == InvalidState && forall f :: !Live(history, id.value, f)
    {
      if id.None? {
        return Ok(0);
      }
      forall f
        ensures Live(history, id.value, f) <==> id.value in frames && frames[id.value] == f
      {
        TableIsLive(history, id.value, f);
      }
      r := if id.value in frames then Ok(frames[id.value]) else Err(InvalidState);
    }
  }

  /** The receipts the four receivers of a session make. */
  ghost predicate ServerReceipt(r: Receipt<ServerEvent>) {
    r.want == Anything || r.want == SubmitsOnly || r.want == FramesOnly
  }

  /**
   * Over every run of the four receivers: pending is the pulled and undelivered events in wire order, nothing is
   * delivered twice, and submits, runtime frames and lifecycle records each come out in wire order without gaps.
   */
  lemma PumpAccounts(wire: seq<Event>, receipts: seq<Receipt<ServerEvent>>, p: Pump<ServerEvent>)
    requires Runs(Traffic(wire), receipts, p) && forall r :: r in receipts ==> ServerReceipt(r)
    ensures Accounted(Traffic(wire), p)
    ensures Through(wire, p, SubmitsOnly) && Through(wire, p, FramesOnly) && Through(wire, p, RecordsOnly)
  {
    StampedDistinct(Exposed(wire));
    RunAccounted(Traffic(wire), receipts, p);
    RunKeepsOrder(Traffic(wire), receipts, p, SubmitsOnly);
    RunKeepsOrder(Traffic(wire), receipts, p, FramesOnly);
    RunKeepsOrder(Traffic(wire), receipts, p, RecordsOnly);
  }

  ghost predicate Through(wire: seq<Event>, p: Pump<ServerEvent>, kind: Arrival<ServerEvent> -> bool) {
    && p.pulled <= |wire|
    && Filter(p.delivered, kind) + Filter(p.pending, kind) == Filter(Traffic(wire)[..p.pulled], kind)
  }

  lemma {:induction false} FilteredTraffic(wire: seq<Event>, n: nat, kind: Arrival<ServerEvent> -> bool)
    requires n <= |wire|
    ensures var s := Filter(Traffic(wire)[..n], kind);
            && (forall a :: a in s ==> a.place < n && Tells(a, wire) && kind(a))
            && (forall a: Arrival<ServerEvent> :: a.place < n && Tells(a, wire) && kind(a) ==> a in s)
            && forall j, k :: 0 <= j < k < |s| ==> s[j].place < s[k].place
  {
    hide Traffic, Tells;
    if n > 0 {
      FilteredTraffic(wire, n - 1, kind);
      var front, last := Traffic(wire)[..n - 1], Traffic(wire)[n - 1];
      assert Traffic(wire)[..n] == front + [last];
      FilterNext(front, last, kind);
      hide Filter;
      TrafficTells(wire, n - 1);
      forall a: Arrival<ServerEvent> | a.place < n && Tells(a, wire) && kind(a)
        ensures a in Filter(front, kind) + (if kind(last) then [last] else [])
      {
        ToldOnce(wire, a);
      }
    } else {
      assert Traffic(wire)[..0] == [];
    }
  }

  /** Arrivals of one kind, handed out or waiting: exactly those the wire has up to `n`, each once, in wire order. */
  ghost predicate JustThose(s: seq<Arrival<ServerEvent>>, wire: seq<Event>, n: nat, places: set<nat>) {
    && (forall a :: a in s ==> a.place < n && a.place in places && Tells(a, wire))
    && (forall i :: 0 <= i < n && i in places ==> exists a :: a in s && a.place == i)
    && (forall j, k :: 0 <= j < k < |s| ==> s[j].place < s[k].place)
  }

  lemma KindOnWire(wire: seq<Event>, p: Pump<ServerEvent>, kind: Arrival<ServerEvent> -> bool, places: set<nat>)
    requires Through(wire, p, kind)
    requires forall i :: 0 <= i < |wire| ==> (kind(Traffic(wire)[i]) <==> i in places)
    ensures JustThose(Filter(p.delivered, kind) + Filter(p.pending, kind), wire, p.pulled, places)
  {
    hide Traffic, Tells;
    FilteredTraffic(wire, p.pulled, kind);
    hide Filter;
    var s := Filter(p.delivered, kind) + Filter(p.pending, kind);
    forall a | a in s
      ensures a.place < p.pulled && a.place in places && Tells(a, wire)
    {
      ToldOnce(wire, a);
    }
    forall i | 0 <= i < p.pulled && i in places
      ensures exists a :: a in s && a.place == i
    {
      TrafficTells(wire, i);
      assert Traffic(wire)[i] in s;
    }
  }

  /** The places of the submits, of the other runtime events and of the lifecycle records of a wire. */
  function SubmitPlaces(wire: seq<Event>): set<nat> {
    set i | 0 <= i < |wire| && wire[i].Runtime? && wire[i].messageType == 0x10
  }

  function FramePlaces(wire: seq<Event>): set<nat> {
    set i | 0 <= i < |wire| && wire[i].Runtime? && wire[i].messageType != 0x10
  }

  function RecordPlaces(wire: seq<Event>): set<nat> {
    set i | 0 <= i < |wire| && wire[i].Lifecycle?
  }

  lemma KindsOnWire(wire: seq<Event>)
    ensures forall i :: 0 <= i < |wire| ==> (SubmitsOnly(Traffic(wire)[i]) <==> i in SubmitPlaces(wire))
    ensures forall i :: 0 <= i < |wire| ==> (FramesOnly(Traffic(wire)[i]) <==> i in FramePlaces(wire))
    ensures forall i :: 0 <= i < |wire| ==> (RecordsOnly(Traffic(wire)[i]) <==> i in RecordPlaces(wire))
  {
    hide Traffic, Tells, SubmitsOnly, FramesOnly, RecordsOnly;
    forall i | 0 <= i < |wire|
      ensures SubmitsOnly(Traffic(wire)[i]) <==> i in SubmitPlaces(wire)
      ensures FramesOnly(Traffic(wire)[i]) <==> i in FramePlaces(wire)
      ensures RecordsOnly(Traffic(wire)[i]) <==> i in RecordPlaces(wire)
    {
      TrafficTells(wire, i);
    }
  }

  /**
   * The same account on the native events themselves. Of what was pulled, the operations handed out or waiting are
   * those of the submits (type 0x10), the frames those of the other runtime events, the records the lifecycle records;
   * each of them once, with what its event holds, and in wire order.
   */
  lemma PumpOnWire(wire: seq<Event>, receipts: seq<Receipt<ServerEvent>>, p: Pump<ServerEvent>)
    requires Runs(Traffic(wire), receipts, p) && forall r :: r in receipts ==> ServerReceipt(r)
    ensures p.pulled <= |wire|
    ensures JustThose(Filter(p.delivered, SubmitsOnly) + Filter(p.pending, SubmitsOnly), wire, p.pulled,
                      SubmitPlaces(wire))
    ensures JustThose(Filter(p.delivered, FramesOnly) + Filter(p.pending, FramesOnly), wire, p.pulled,
                      FramePlaces(wire))
    ensures JustThose(Filter(p.delivered, RecordsOnly) + Filter(p.pending, RecordsOnly), wire, p.pulled,
                      RecordPlaces(wire))
  {
    PumpAccounts(wire, receipts, p);
    ThroughBounds(wire, p);
    hide Traffic, Filter, JustThose, Runs, Accounted, Through, SubmitsOnly, FramesOnly, RecordsOnly;
    hide SubmitPlaces, FramePlaces, RecordPlaces;
    KindsOnWire(wire);
    KindOnWire(wire, p, SubmitsOnly, SubmitPlaces(wire));
    KindOnWire(wire, p, FramesOnly, FramePlaces(wire));
    KindOnWire(wire, p, RecordsOnly, RecordPlaces(wire));
  }

  lemma ThroughBounds(wire: seq<Event>, p: Pump<ServerEvent>)
    requires Through(wire, p, SubmitsOnly)
    ensures p.pulled <= |wire|
  {
  }

  /** The canonical pump alone: next_event and poll_events deliver every event in wire order without filtering. */
  lemma CanonicalOrder(wire: seq<Event>, receipts: seq<Receipt<ServerEvent>>, p: Pump<ServerEvent>)
    requires Runs(Traffic(wire), receipts, p) && forall r :: r in receipts ==> r.want == Anything
    ensures p.pulled <= |wire| && p.delivered + p.pending == Traffic(wire)[..p.pulled]
  {
    RunKeepsOrder(Traffic(wire), receipts, p, Anything);
    FilterAll(p.delivered, Anything);
    FilterAll(p.pending, Anything);
    FilterAll(Traffic(wire)[..p.pulled], Anything);
  }

  lemma {:induction false} SubmitNumbers(wire: seq<Event>, n: nat)
    requires n <= |wire|
    ensures var ops := Filter(Traffic(wire)[..n], SubmitsOnly);
            |ops| == Submits(wire[..n]) &&
            forall k :: 0 <= k < |ops| ==> ops[k].event.Submit? && ops[k].event.operation.number == k
  {
    if n > 0 {
      SubmitNumbers(wire, n - 1);
      TrafficGrows(wire, 0, n - 1);
      assert Traffic(wire)[0..n - 1] == Traffic(wire)[..n - 1] && Traffic(wire)[0..n] == Traffic(wire)[..n];
      assert Traffic(wire)[..n][..n - 1] == Traffic(wire)[..n - 1];
    }
  }

  /**
   * Each submit yields one operation: over every run the operations delivered are number 0, 1, 2, ... in order,
   * and delivered and pending ones together are as many as the submits pulled.
   */
  lemma OneOperationPerSubmit(wire: seq<Event>, receipts: seq<Receipt<ServerEvent>>, p: Pump<ServerEvent>)
    requires Runs(Traffic(wire), receipts, p) && forall r :: r in receipts ==> ServerReceipt(r)
    ensures var ops := Filter(p.delivered, SubmitsOnly);
            && p.pulled <= |wire|
            && |ops| + |Filter(p.pending, SubmitsOnly)| == Submits(wire[..p.pulled])
            && forall k :: 0 <= k < |ops| ==> ops[k].event.Submit? && ops[k].event.operation.number == k
  {
    PumpAccounts(wire, receipts, p);
    SubmitNumbers(wire, p.pulled);
    var ops, waiting := Filter(p.delivered, SubmitsOnly), Filter(p.pending, SubmitsOnly);
    assert forall k :: 0 <= k < |ops| ==> ops[k] == (ops + waiting)[k];
  }
}
