/**
 * The ledger behind every event pump of src/nnrp/native.py: several selective receivers share one
 * pending queue, and a native poll hands over a prefix of the events not pulled so far.
 */
module Ledger {
  import opened Outcomes
  import opened Sequences

  /** A decoded event object; `place` (its position on the wire) is its identity, which no branch reads. */
  datatype Arrival<E> = Arrival(place: nat, event: E)

  /** The events of a whole run, each with its place. */
  function Stamped<E>(events: seq<E>): seq<Arrival<E>> {
    seq(|events|, i requires 0 <= i < |events| => Arrival(i, events[i]))
  }

  lemma StampedDistinct<E>(events: seq<E>)
    ensures NoRepeats(Stamped(events))
  {
    var w := Stamped(events);
    forall i, j | 0 <= i < j < |w|
      ensures w[i] != w[j]
    {
      assert w[i].place == i && w[j].place == j;
    }
  }

  predicate Room(limit: Option<nat>, taken: nat) {
    limit.None? || taken < limit.value
  }

  /** What is left of a limit once `taken` events are taken. */
  function Rest(limit: Option<nat>, taken: nat): Option<nat> {
    if limit.None? then None else Some(if taken <= limit.value then limit.value - taken else 0)
  }

  /** The events a receiver takes from a queue: the wanted ones, in order, while there is room. */
  function Select<T>(queue: seq<T>, want: T -> bool, limit: Option<nat>): seq<T> {
    if queue == [] then []
    else
      var front, last := Select(queue[..|queue| - 1], want, limit), queue[|queue| - 1];
      if Room(limit, |front|) && want(last) then front + [last] else front
  }

  /** The events the same receiver leaves behind, in order. */
  function Retain<T>(queue: seq<T>, want: T -> bool, limit: Option<nat>): seq<T> {
    if queue == [] then []
    else
      var front, last := queue[..|queue| - 1], queue[|queue| - 1];
      Retain(front, want, limit) +
      if Room(limit, |Select(front, want, limit)|) && want(last) then [] else [last]
  }

  /** Receiving from a queue in two parts: the second part is used up to what the first part left of the limit. */
  lemma {:induction false} SelectAppend<T>(a: seq<T>, b: seq<T>, want: T -> bool, limit: Option<nat>)
    ensures Select(a + b, want, limit) ==
            Select(a, want, limit) + Select(b, want, Rest(limit, |Select(a, want, limit)|))
    ensures Retain(a + b, want, limit) ==
            Retain(a, want, limit) + Retain(b, want, Rest(limit, |Select(a, want, limit)|))
  {
    hide Select, Retain, Room;
    if b == [] {
      assert a + b == a;
      SelectNone(want, Rest(limit, |Select(a, want, limit)|));
    } else {
      var front, last := b[..|b| - 1], b[|b| - 1];
      SelectAppend(a, front, want, limit);
      assert a + b == a + front + [last] && b == front + [last];
      SelectAppendOne(a, front, last, want, limit);
    }
  }

  lemma SelectAppendOne<T>(a: seq<T>, front: seq<T>, last: T, want: T -> bool, limit: Option<nat>)
    requires var rest := Rest(limit, |Select(a, want, limit)|);
             && Select(a + front, want, limit) == Select(a, want, limit) + Select(front, want, rest)
             && Retain(a + front, want, limit) == Retain(a, want, limit) + Retain(front, want, rest)
    ensures var rest := Rest(limit, |Select(a, want, limit)|);
            && Select(a + front + [last], want, limit) == Select(a, want, limit) + Select(front + [last], want, rest)
            && Retain(a + front + [last], want, limit) == Retain(a, want, limit) + Retain(front + [last], want, rest)
  {
    hide Select, Retain;
    var rest := Rest(limit, |Select(a, want, limit)|);
    SelectWithin(a, want, limit);
    SelectWithin(front, want, rest);
    SelectNext(a + front, last, want, limit);
    SelectNext(front, last, want, rest);
  }

  /** One more event at the end of a queue: the loop step of every receiver that sorts a list into two. */
  lemma SelectNext<T>(queue: seq<T>, x: T, want: T -> bool, limit: Option<nat>)
    ensures var takes := Room(limit, |Select(queue, want, limit)|) && want(x);
            && Select(queue + [x], want, limit) == Select(queue, want, limit) + (if takes then [x] else [])
            && Retain(queue + [x], want, limit) == Retain(queue, want, limit) + (if takes then [] else [x])
  {
    assert (queue + [x])[..|queue|] == queue;
  }

  lemma SelectNone<T>(want: T -> bool, limit: Option<nat>)
    ensures Select([], want, limit) == [] && Retain([], want, limit) == []
  {
  }

  lemma {:induction false} SelectZero<T>(q: seq<T>, want: T -> bool)
    ensures Select(q, want, Some(0)) == [] && Retain(q, want, Some(0)) == q
  {
    if q != [] {
      SelectZero(q[..|q| - 1], want);
    }
  }

  lemma {:induction false} SelectWithin<T>(q: seq<T>, want: T -> bool, limit: Option<nat>)
    ensures limit.Some? ==> |Select(q, want, limit)| <= limit.value
    ensures |Select(q, want, limit)| + |Retain(q, want, limit)| == |q|
    ensures forall x :: x in Select(q, want, limit) ==> x in q && want(x)
  {
    if q != [] {
      SelectWithin(q[..|q| - 1], want, limit);
    }
  }

  /** A receiver that still has room leaves no wanted event behind. */
  lemma {:induction false} RoomLeft<T>(q: seq<T>, want: T -> bool, limit: Option<nat>)
    requires Room(limit, |Select(q, want, limit)|)
    ensures forall x :: x in Retain(q, want, limit) ==> !want(x)
  {
    if q != [] {
      RoomLeft(q[..|q| - 1], want, limit);
    }
  }

  /** With a limit of one, the receiver takes the earliest wanted event, and takes none only if none is wanted. */
  lemma {:induction false} SelectOne<T>(q: seq<T>, want: T -> bool, i: nat)
    requires i <= |q|
    requires forall j :: 0 <= j < i ==> !want(q[j])
    requires i < |q| ==> want(q[i])
    ensures Select(q, want, Some(1)) == if i < |q| then [q[i]] else []
    ensures Retain(q, want, Some(1)) == if i < |q| then q[..i] + q[i + 1..] else q
  {
    hide Select, Retain;
    if q == [] {
      SelectNone(want, Some(1));
    } else {
      var front, last := q[..|q| - 1], q[|q| - 1];
      assert q == front + [last];
      SelectNext(front, last, want, Some(1));
      SelectOne(front, want, if i < |front| then i else |front|);
      if i < |front| {
        assert front[..i] + front[i + 1..] + [last] == q[..i] + q[i + 1..];
      } else if i == |front| {
        assert q[..i] == front && q[i + 1..] == [];
      }
    }
  }

  /** A receiver of everything takes a prefix of its queue. */
  lemma {:induction false} SelectAll<T>(q: seq<T>, want: T -> bool, n: nat)
    requires forall x :: x in q ==> want(x)
    ensures Select(q, want, Some(n)) == if n <= |q| then q[..n] else q
    ensures Retain(q, want, Some(n)) == if n <= |q| then q[n..] else []
  {
    hide Select, Retain;
    if q == [] {
      SelectNone(want, Some(n));
    } else {
      var front, last := q[..|q| - 1], q[|q| - 1];
      assert q == front + [last] && last in q;
      assert forall x :: x in front ==> x in q;
      SelectAll(front, want, n);
      SelectNext(front, last, want, Some(n));
      if n <= |front| {
        assert front[..n] == q[..n] && front[n..] + [last] == q[n..];
      } else {
        assert q[..|q|] == q;
      }
    }
  }

  /** The events of `all` not among `gone`, in order. */
  function Without<T(==)>(all: seq<T>, gone: seq<T>): seq<T> {
    if all == [] then []
    else
      var last := all[|all| - 1];
      Without(all[..|all| - 1], gone) + if last in gone then [] else [last]
  }

  lemma {:induction false} WithoutMembers<T>(all: seq<T>, gone: seq<T>)
    ensures forall x :: x in Without(all, gone) <==> x in all && x !in gone
    ensures NoRepeats(all) ==> NoRepeats(Without(all, gone))
  {
    if all != [] {
      var front := all[..|all| - 1];
      WithoutMembers(front, gone);
      assert all == front + [all[|all| - 1]];
    }
  }

  lemma WithoutEmpty<T>(gone: seq<T>)
    ensures Without([], gone) == []
  {
  }

  lemma WithoutNext<T>(all: seq<T>, x: T, gone: seq<T>)
    ensures Without(all + [x], gone) == Without(all, gone) + (if x in gone then [] else [x])
  {
    assert (all + [x])[..|all|] == all;
  }

  lemma {:induction false} WithoutAppend<T>(a: seq<T>, b: seq<T>, gone: seq<T>)
    ensures Without(a + b, gone) == Without(a, gone) + Without(b, gone)
  {
    hide Without;
    if b == [] {
      assert a + b == a;
      WithoutEmpty(gone);
    } else {
      var front, last := b[..|b| - 1], b[|b| - 1];
      WithoutAppend(a, front, gone);
      assert b == front + [last] && a + b == a + front + [last];
      WithoutNext(a + front, last, gone);
      WithoutNext(front, last, gone);
    }
  }

  lemma {:induction false} WithoutTwice<T>(all: seq<T>, first: seq<T>, second: seq<T>)
    ensures Without(Without(all, first), second) == Without(all, first + second)
  {
    if all != [] {
      var front, last := all[..|all| - 1], all[|all| - 1];
      WithoutTwice(front, first, second);
      WithoutAppend(Without(front, first), [last], second);
      assert Without([last], second) == if last in second then [] else [last];
      assert Without(front, first) + [] == Without(front, first);
    }
  }

  lemma {:induction false} WithoutStrangers<T>(all: seq<T>, gone: seq<T>, more: seq<T>)
    requires forall x :: x in all ==> x !in more
    ensures Without(all, gone + more) == Without(all, gone)
  {
    if all != [] {
      WithoutStrangers(all[..|all| - 1], gone, more);
    }
  }

  lemma {:induction false} WithoutNone<T>(all: seq<T>)
    ensures Without(all, []) == all
  {
    if all != [] {
      WithoutNone(all[..|all| - 1]);
    }
  }

  /** Among distinct events, what a receiver leaves is what it did not take. */
  lemma {:induction false} RetainIsWithout<T>(q: seq<T>, want: T -> bool, limit: Option<nat>)
    requires NoRepeats(q)
    ensures Retain(q, want, limit) == Without(q, Select(q, want, limit))
    ensures NoRepeats(Select(q, want, limit))
  {
    if q != [] {
      var front, last := q[..|q| - 1], q[|q| - 1];
      RetainIsWithout(front, want, limit);
      SelectWithin(front, want, limit);
      if Room(limit, |Select(front, want, limit)|) && want(last) {
        WithoutStrangers(front, Select(front, want, limit), [last]);
        assert Retain(front, want, limit) + [] == Retain(front, want, limit);
      }
    }
  }

  /** A pump: how many events were pulled from the wire, which of them wait, and which were delivered, in order. */
  datatype Pump<E> = Pump(pulled: nat, pending: seq<Arrival<E>>, delivered: seq<Arrival<E>>)

  /** One receive: what it wants, how many at most, and how many events its native polls brought. */
  datatype Receipt<!E> = Receipt(want: Arrival<E> -> bool, limit: Option<nat>, pulls: nat)

  function Receive<E>(wire: seq<Arrival<E>>, p: Pump<E>, r: Receipt<E>): Pump<E>
    requires p.pulled + r.pulls <= |wire|
  {
    var queue := p.pending + wire[p.pulled..p.pulled + r.pulls];
    Pump(p.pulled + r.pulls, Retain(queue, r.want, r.limit), p.delivered + Select(queue, r.want, r.limit))
  }

  lemma ReceiveSplits<E>(wire: seq<Arrival<E>>, p: Pump<E>, r: Receipt<E>)
    requires p.pulled + r.pulls <= |wire|
    ensures var queue := p.pending + wire[p.pulled..p.pulled + r.pulls];
            Receive(wire, p, r) ==
            Pump(p.pulled + r.pulls, Retain(queue, r.want, r.limit), p.delivered + Select(queue, r.want, r.limit))
  {
  }

  /** What a receiver of one event does: it takes the earliest wanted one, if there is any. */
  lemma ReceiveOne<E>(wire: seq<Arrival<E>>, p: Pump<E>, want: Arrival<E> -> bool, pulls: nat, i: nat)
    requires p.pulled + pulls <= |wire|
    requires var queue := p.pending + wire[p.pulled..p.pulled + pulls];
             i <= |queue| && (forall j :: 0 <= j < i ==> !want(queue[j])) && (i < |queue| ==> want(queue[i]))
    ensures var queue := p.pending + wire[p.pulled..p.pulled + pulls];
            Receive(wire, p, Receipt(want, Some(1), pulls)) ==
            if i == |queue| then Pump(p.pulled + pulls, queue, p.delivered)
            else Pump(p.pulled + pulls, queue[..i] + queue[i + 1..], p.delivered + [queue[i]])
  {
    var queue := p.pending + wire[p.pulled..p.pulled + pulls];
    SelectOne(queue, want, i);
    assert p.delivered + [] == p.delivered;
  }

  /** Pending is exactly the pulled and undelivered events in wire order, and nothing is delivered twice. */
  ghost predicate Accounted<E>(wire: seq<Arrival<E>>, p: Pump<E>) {
    && p.pulled <= |wire|
    && p.pending == Without(wire[..p.pulled], p.delivered)
    && NoRepeats(p.delivered)
    && forall a :: a in p.delivered ==> a in wire[..p.pulled]
  }

  /** Pulling more events keeps the account: nothing new was delivered yet. */
  lemma QueueAccounted<E>(wire: seq<Arrival<E>>, p: Pump<E>, pulls: nat)
    requires NoRepeats(wire) && Accounted(wire, p) && p.pulled + pulls <= |wire|
    ensures p.pending + wire[p.pulled..p.pulled + pulls] == Without(wire[..p.pulled + pulls], p.delivered)
  {
    hide Without;
    var before, batch := wire[..p.pulled], wire[p.pulled..p.pulled + pulls];
    assert wire[..p.pulled + pulls] == before + batch;
    forall x | x in batch
      ensures x !in p.delivered
    {
      var i :| p.pulled <= i < p.pulled + pulls && wire[i] == x;
      assert forall j :: 0 <= j < |before| ==> wire[j] != wire[i];
    }
    WithoutAppend(before, batch, p.delivered);
    WithoutStrangers(batch, [], p.delivered);
    WithoutNone(batch);
    assert [] + p.delivered == p.delivered;
  }

  /** Every receive, by any receiver and with any native batch, keeps the account. */
  lemma ReceiveKeeps<E>(wire: seq<Arrival<E>>, p: Pump<E>, r: Receipt<E>)
    requires NoRepeats(wire) && Accounted(wire, p) && p.pulled + r.pulls <= |wire|
    ensures Accounted(wire, Receive(wire, p, r))
  {
    hide Select, Retain, Without, NoRepeats;
    var after, queue := wire[..p.pulled + r.pulls], p.pending + wire[p.pulled..p.pulled + r.pulls];
    QueueAccounted(wire, p, r.pulls);
    WithoutMembers(after, p.delivered);
    DistinctFront(wire, p.pulled + r.pulls);
    RetainIsWithout(queue, r.want, r.limit);
    SelectWithin(queue, r.want, r.limit);
    var taken := Select(queue, r.want, r.limit);
    WithoutTwice(after, p.delivered, taken);
    DistinctJoin(p.delivered, taken);
    forall x | x in p.delivered
      ensures x in after
    {
      assert wire[..p.pulled] == after[..p.pulled];
    }
  }

  /** What a receive handed over was wanted and new, and with room left nothing wanted is held back. */
  lemma ReceivedWanted<E>(wire: seq<Arrival<E>>, p: Pump<E>, r: Receipt<E>, taken: seq<Arrival<E>>)
    requires NoRepeats(wire) && Accounted(wire, p) && p.pulled + r.pulls <= |wire|
    requires Receive(wire, p, r).delivered == p.delivered + taken
    ensures forall a :: a in taken ==> r.want(a) && a !in p.delivered && a in wire[..p.pulled + r.pulls]
    ensures Room(r.limit, |taken|) ==>
              forall a :: a in wire[..p.pulled + r.pulls] && r.want(a) ==> a in p.delivered || a in taken
  {
    hide Select, Retain, Without, NoRepeats, Room;
    var after, queue := wire[..p.pulled + r.pulls], p.pending + wire[p.pulled..p.pulled + r.pulls];
    QueueAccounted(wire, p, r.pulls);
    WithoutMembers(after, p.delivered);
    var selected := Select(queue, r.want, r.limit);
    assert (p.delivered + taken)[|p.delivered|..] == taken;
    assert (p.delivered + selected)[|p.delivered|..] == selected;
    SelectWithin(queue, r.want, r.limit);
    SelectOrRetain(queue, r.want, r.limit);
    if Room(r.limit, |taken|) {
      RoomLeft(queue, r.want, r.limit);
    }
  }

  lemma {:induction false} SelectOrRetain<T>(q: seq<T>, want: T -> bool, limit: Option<nat>)
    ensures forall x :: x in q ==> x in Select(q, want, limit) || x in Retain(q, want, limit)
  {
    if q != [] {
      SelectOrRetain(q[..|q| - 1], want, limit);
      assert q == q[..|q| - 1] + [q[|q| - 1]];
    }
  }

  lemma DistinctFront<T>(s: seq<T>, n: nat)
    requires NoRepeats(s) && n <= |s|
    ensures NoRepeats(s[..n])
  {
  }

  lemma DistinctJoin<T>(a: seq<T>, b: seq<T>)
    requires NoRepeats(a) && NoRepeats(b) && forall x :: x in b ==> x !in a
    ensures NoRepeats(a + b)
  {
    forall i, j | 0 <= i < j < |a + b|
      ensures (a + b)[i] != (a + b)[j]
    {
      if j < |a| {
        assert a[i] != a[j];
      } else if i < |a| {
        assert b[j - |a|] in b && a[i] in a;
      } else {
        assert b[i - |a|] != b[j - |a|];
      }
    }
  }

  /** A receiver treats a class alike: it wants all of its events or none. */
  ghost predicate Alike<T(!new)>(want: T -> bool, kind: T -> bool) {
    || (forall x :: kind(x) ==> want(x))
    || (forall x :: kind(x) ==> !want(x))
  }

  /** Such a receiver never lets an event of the class overtake another. */
  lemma {:induction false} SelectKeepsOrder<T(!new)>(q: seq<T>, want: T -> bool, limit: Option<nat>, kind: T -> bool)
    requires Alike(want, kind)
    ensures Filter(Select(q, want, limit), kind) + Filter(Retain(q, want, limit), kind) == Filter(q, kind)
  {
    hide Filter, Room;
    NoneKept(kind);
    if q != [] {
      var front, last := q[..|q| - 1], q[|q| - 1];
      SelectKeepsOrder(front, want, limit, kind);
      var taken, left := Select(front, want, limit), Retain(front, want, limit);
      if Room(limit, |taken|) && want(last) {
        assert Select(q, want, limit) == taken + [last];
        assert Retain(q, want, limit) == left + [] == left;
        RoomLeft(front, want, limit);
        TakeOne(taken, left, front, last, want, kind);
      } else {
        assert Select(q, want, limit) == taken;
        assert Retain(q, want, limit) == left + [last];
        LeaveOne(taken, left, front, last, kind);
      }
      assert q == front + [last];
      FilterAppend(front, [last], kind);
    }
  }

  lemma NoneKept<T>(kind: T -> bool)
    ensures Filter([], kind) == []
  {
  }

  lemma TakeOne<T(!new)>(taken: seq<T>, left: seq<T>, front: seq<T>, last: T, want: T -> bool, kind: T -> bool)
    requires Alike(want, kind) && want(last) && forall x :: x in left ==> !want(x)
    requires Filter(taken, kind) + Filter(left, kind) == Filter(front, kind)
    ensures Filter(taken + [last], kind) + Filter(left, kind) == Filter(front + [last], kind)
  {
    hide Filter;
    FilterAppend(taken, [last], kind);
    FilterAppend(front, [last], kind);
    if kind(last) {
      FilterNone(left, kind);
      assert Filter(front, kind) == Filter(taken, kind);
    } else {
      assert forall x :: x in [last] ==> !kind(x);
      FilterNone([last], kind);
      assert Filter(taken, kind) + [] == Filter(taken, kind);
    }
  }

  lemma LeaveOne<T>(taken: seq<T>, left: seq<T>, front: seq<T>, last: T, kind: T -> bool)
    requires Filter(taken, kind) + Filter(left, kind) == Filter(front, kind)
    ensures Filter(taken, kind) + Filter(left + [last], kind) == Filter(front + [last], kind)
  {
    hide Filter;
    FilterAppend(left, [last], kind);
    FilterAppend(front, [last], kind);
  }

  /** Where a run of receives leads. */
  ghost predicate Runs<E(!new)>(wire: seq<Arrival<E>>, receipts: seq<Receipt<E>>, p: Pump<E>) {
    if receipts == [] then p == Pump(0, [], [])
    else
      exists q :: Runs(wire, receipts[..|receipts| - 1], q) &&
                  q.pulled + receipts[|receipts| - 1].pulls <= |wire| &&
                  p == Receive(wire, q, receipts[|receipts| - 1])
  }

  /** Over every run of any receivers, pulled events are exactly delivered plus pending, with pending in wire order. */
  lemma {:induction false} RunAccounted<E(!new)>(wire: seq<Arrival<E>>, receipts: seq<Receipt<E>>, p: Pump<E>)
    requires NoRepeats(wire) && Runs(wire, receipts, p)
    ensures Accounted(wire, p)
  {
    if receipts == [] {
      WithoutNone(wire[..0]);
    } else {
      var last := receipts[|receipts| - 1];
      var q :| Runs(wire, receipts[..|receipts| - 1], q) && q.pulled + last.pulls <= |wire| &&
               p == Receive(wire, q, last);
      RunAccounted(wire, receipts[..|receipts| - 1], q);
      ReceiveKeeps(wire, q, last);
    }
  }

  /**
   * Over every run whose receivers all treat a class alike, the class is delivered in wire order and without
   * gaps: what was delivered of it, followed by what waits, is what was pulled of it.
   */
  lemma {:induction false} RunKeepsOrder<E(!new)>(
    wire: seq<Arrival<E>>, receipts: seq<Receipt<E>>, p: Pump<E>, kind: Arrival<E> -> bool)
    requires Runs(wire, receipts, p)
    requires forall r :: r in receipts ==> Alike(r.want, kind)
    ensures p.pulled <= |wire|
    ensures Filter(p.delivered, kind) + Filter(p.pending, kind) == Filter(wire[..p.pulled], kind)
  {
    if receipts == [] {
      assert Filter(wire[..0], kind) == [];
    } else {
      var last := receipts[|receipts| - 1];
      var q :| Runs(wire, receipts[..|receipts| - 1], q) && q.pulled + last.pulls <= |wire| &&
               p == Receive(wire, q, last);
      RunKeepsOrder(wire, receipts[..|receipts| - 1], q, kind);
      ReceiveKeepsOrder(wire, q, last, kind);
    }
  }

  lemma ReceiveKeepsOrder<E(!new)>(wire: seq<Arrival<E>>, q: Pump<E>, r: Receipt<E>, kind: Arrival<E> -> bool)
    requires q.pulled + r.pulls <= |wire| && Alike(r.want, kind)
    requires Filter(q.delivered, kind) + Filter(q.pending, kind) == Filter(wire[..q.pulled], kind)
    ensures var p := Receive(wire, q, r);
            Filter(p.delivered, kind) + Filter(p.pending, kind) == Filter(wire[..p.pulled], kind)
  {
    hide Select, Retain, Filter;
    var batch := wire[q.pulled..q.pulled + r.pulls];
    var queue := q.pending + batch;
    FilterAppend(wire[..q.pulled], batch, kind);
    assert wire[..q.pulled] + batch == wire[..q.pulled + r.pulls];
    FilterAppend(q.pending, batch, kind);
    SelectKeepsOrder(queue, r.want, r.limit, kind);
    var taken, left := Select(queue, r.want, r.limit), Retain(queue, r.want, r.limit);
    FilterAppend(q.delivered, taken, kind);
    assert Receive(wire, q, r) == Pump(q.pulled + r.pulls, left, q.delivered + taken);
    assert Filter(wire[..q.pulled + r.pulls], kind)
        == Filter(q.delivered, kind) + Filter(q.pending, kind) + Filter(batch, kind)
        == Filter(q.delivered, kind) + (Filter(q.pending, kind) + Filter(batch, kind))
        == Filter(q.delivered, kind) + Filter(queue, kind)
        == Filter(q.delivered, kind) + (Filter(taken, kind) + Filter(left, kind));
  }
}
