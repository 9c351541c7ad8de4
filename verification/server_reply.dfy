/** The reply capability of one server operation under concurrent calls (src/nnrp/native.py:5476-5566). */
module ServerReply {
  import opened Outcomes
  import opened FrameTable
  import ServerSession

  /**
   * Where one reply call is: its send runs on a worker thread, the worker has answered but the call has not acted
   * on it, the call has acted on it; or it was refused before sending.
   */
  datatype Call =
    | Sending(terminal: bool)
    | Answered(terminal: bool, ok: bool)
    | Settled(terminal: bool, ok: bool)
    | Refused(terminal: bool)

  /** `calls` holds every call in the order they passed, or failed, the check of the flag. */
  datatype Reply = Reply(open: bool, started: bool, calls: seq<Call>)

  /**
   * The atomic steps. A call looks whether the session is open before it takes the lock, so it may have seen an
   * open session that has closed since.
   */
  datatype Step = Begin(terminal: bool, sawOpen: bool) | Answer(call: nat, ok: bool) | Settle(call: nat) | Close

  const Fresh := Reply(true, false, [])

  predicate Enabled(r: Reply, s: Step) {
    match s
    case Begin(_, sawOpen) => sawOpen || !r.open
    case Answer(i, _) => i < |r.calls| && r.calls[i].Sending?
    case Settle(i) => i < |r.calls| && r.calls[i].Answered?
    case Close => true
  }

  function Next(r: Reply, s: Step): Reply
    requires Enabled(r, s)
  {
    match s
    case Begin(terminal, sawOpen) =>
      if !sawOpen || r.started then r.(calls := r.calls + [Refused(terminal)])
      else r.(started := terminal, calls := r.calls + [Sending(terminal)])
    case Answer(i, ok) => r.(calls := r.calls[i := Answered(r.calls[i].terminal, ok)])
    case Settle(i) =>
      var c := r.calls[i];
      Reply(r.open, if c.terminal && !c.ok then false else r.started,
            r.calls[i := Settled(c.terminal, c.ok)])
    case Close => r.(open := false)
  }

  /** The state after a run of steps, each possible where it happens. */
  function After(steps: seq<Step>): Option<Reply> {
    if steps == [] then Some(Fresh)
    else
      var before, last := After(steps[..|steps| - 1]), steps[|steps| - 1];
      if before.Some? && Enabled(before.value, last) then Some(Next(before.value, last)) else None
  }

  predicate Succeeded(c: Call) {
    (c.Answered? || c.Settled?) && c.ok
  }

  /** A terminal call in flight, answered but not acted on, or successful. */
  predicate Holds(c: Call) {
    c.terminal && (c.Sending? || c.Answered? || (c.Settled? && c.ok))
  }

  /** The flag is up exactly while a terminal call holds the reply, and every call after that one was refused. */
  ghost predicate Guarded(r: Reply) {
    && (r.started <==> exists i :: 0 <= i < |r.calls| && Holds(r.calls[i]))
    && forall i, j :: 0 <= i < j < |r.calls| && Holds(r.calls[i]) ==> r.calls[j].Refused?
  }

  lemma NextGuarded(r: Reply, s: Step)
    requires Guarded(r) && Enabled(r, s)
    ensures Guarded(Next(r, s))
  {
    var n := Next(r, s);
    match s
    case Begin(terminal, sawOpen) =>
      assert forall i :: 0 <= i < |r.calls| ==> n.calls[i] == r.calls[i];
      if n.started && !r.started {
        assert Holds(n.calls[|r.calls|]);
      }
    case Answer(k, ok) =>
      assert forall i :: 0 <= i < |r.calls| ==> (Holds(n.calls[i]) <==> Holds(r.calls[i]));
    case Settle(k) =>
      assert forall i :: 0 <= i < |r.calls| && i != k ==> n.calls[i] == r.calls[i];
      if r.calls[k].terminal && !r.calls[k].ok {
        assert Holds(r.calls[k]);
        assert forall i :: 0 <= i < |r.calls| && i != k ==> !Holds(r.calls[i]);
      } else {
        assert forall i :: 0 <= i < |r.calls| ==> (Holds(n.calls[i]) <==> Holds(r.calls[i]));
      }
    case Close =>
  }

  lemma {:induction false} RunGuarded(steps: seq<Step>)
    requires After(steps).Some?
    ensures Guarded(After(steps).value)
  {
    if steps != [] {
      var front := steps[..|steps| - 1];
      RunGuarded(front);
      NextGuarded(After(front).value, steps[|steps| - 1]);
    }
  }

  /**
   * Under every interleaving at most one terminal reply succeeds, and whatever began after that one was refused.
   */
  lemma AtMostOneTerminal(steps: seq<Step>, i: nat, j: nat)
    requires After(steps).Some?
    requires var calls := After(steps).value.calls;
             i < |calls| && j < |calls| && calls[i].terminal && Succeeded(calls[i])
    ensures var calls := After(steps).value.calls;
            && (calls[j].terminal && Succeeded(calls[j]) ==> i == j)
            && (i < j ==> calls[j].Refused?)
  {
    RunGuarded(steps);
    assert Holds(After(steps).value.calls[i]);
  }

  /**
   * A reply begins exactly when its session was seen open and no terminal reply is in flight, unsettled or
   * successful; so a failed one, once acted on, allows replies again.
   */
  lemma BeginsIff(steps: seq<Step>, terminal: bool, sawOpen: bool)
    requires After(steps).Some? && Enabled(After(steps).value, Begin(terminal, sawOpen))
    ensures var r := After(steps).value;
            Next(r, Begin(terminal, sawOpen)).calls == r.calls +
              [if sawOpen && forall i :: 0 <= i < |r.calls| ==> !Holds(r.calls[i])
               then Sending(terminal) else Refused(terminal)]
  {
    RunGuarded(steps);
  }

  /** After a failed terminal reply is acted on, no other terminal reply holds the operation. */
  lemma FailureReenables(steps: seq<Step>, i: nat)
    requires After(steps).Some? && Enabled(After(steps).value, Settle(i))
    requires After(steps).value.calls[i] == Answered(true, false)
    ensures var n := Next(After(steps).value, Settle(i));
            !n.started && forall k :: 0 <= k < |n.calls| ==> !Holds(n.calls[k])
  {
    RunGuarded(steps);
    var r := After(steps).value;
    NextGuarded(r, Settle(i));
  }

  /** A closed session stays closed, and a call that sees it so is refused. */
  lemma {:induction false} ClosedStays(steps: seq<Step>, more: seq<Step>)
    requires After(steps + [Close] + more).Some?
    ensures !After(steps + [Close] + more).value.open
    ensures forall terminal ::
              Next(After(steps + [Close] + more).value, Begin(terminal, false)).calls ==
              After(steps + [Close] + more).value.calls + [Refused(terminal)]
  {
    var all := steps + [Close] + more;
    if more == [] {
      assert all[..|all| - 1] == steps;
    } else {
      assert all[..|all| - 1] == steps + [Close] + more[..|more| - 1];
      ClosedStays(steps, more[..|more| - 1]);
    }
  }

  /** Once a terminal reply has succeeded, it stays so and every later call is refused, whatever happens next. */
  lemma {:induction false} SuccessIsFinal(steps: seq<Step>, more: seq<Step>, i: nat)
    requires After(steps).Some? && After(steps + more).Some?
    requires var calls := After(steps).value.calls; i < |calls| && calls[i].terminal && Succeeded(calls[i])
    ensures var before, after := After(steps).value, After(steps + more).value;
            && |before.calls| <= |after.calls| && after.started
            && after.calls[i].terminal && Succeeded(after.calls[i])
            && forall j :: |before.calls| <= j < |after.calls| ==> after.calls[j].Refused?
  {
    if more == [] {
      assert steps + more == steps;
      RunGuarded(steps);
      assert Holds(After(steps).value.calls[i]);
    } else {
      var front := more[..|more| - 1];
      assert (steps + more)[..|steps + more| - 1] == steps + front;
      SuccessIsFinal(steps, front, i);
      RunGuarded(steps + more);
      assert Holds(After(steps + more).value.calls[i]);
    }
  }

  /**
   * The flag is checked only at the start: an incremental reply in flight can still finish after a terminal one
   * that began later has succeeded.
   */
  lemma IncrementalMayFinishLate(steps: seq<Step>, i: nat)
    requires After(steps).Some?
    requires var r := After(steps).value; i < |r.calls| && r.calls[i] == Sending(false) && !r.started
    ensures var n := |After(steps).value.calls|;
            var late := After(steps + [Begin(true, true)] + [Answer(n, true)] + [Settle(n)]);
            && late.Some? && |late.value.calls| == n + 1
            && late.value.calls[n] == Settled(true, true) && late.value.calls[i] == Sending(false)
            && Enabled(late.value, Answer(i, true))
  {
    hide After;
    var r := After(steps).value;
    var n := |r.calls|;
    OneMore(steps, Begin(true, true), r);
    var r1 := Next(r, Begin(true, true));
    OneMore(steps + [Begin(true, true)], Answer(n, true), r1);
    var r2 := Next(r1, Answer(n, true));
    OneMore(steps + [Begin(true, true)] + [Answer(n, true)], Settle(n), r2);
  }

  /** Calls are only added, and none that has been answered or refused is ever sending again. */
  lemma {:induction false} SendingWasSending(steps: seq<Step>, more: seq<Step>, i: nat)
    requires After(steps).Some? && After(steps + more).Some? && i < |After(steps).value.calls|
    ensures |After(steps).value.calls| <= |After(steps + more).value.calls|
    ensures After(steps + more).value.calls[i].Sending? ==>
              After(steps).value.calls[i] == After(steps + more).value.calls[i]
  {
    if more == [] {
      assert steps + more == steps;
    } else {
      assert (steps + more)[..|steps + more| - 1] == steps + more[..|more| - 1];
      SendingWasSending(steps, more[..|more| - 1], i);
    }
  }

  /**
   * Whatever happens after terminal call `n` began, as long as it holds the reply the incremental sends still in
   * flight are among those that were in flight when it began.
   */
  lemma LateWasInFlight(steps: seq<Step>, more: seq<Step>, i: nat)
    requires After(steps).Some? && After(steps + [Begin(true, true)] + more).Some?
    requires var n, late := |After(steps).value.calls|, After(steps + [Begin(true, true)] + more).value.calls;
             n < |late| && Holds(late[n]) && i < |late| && late[i] == Sending(false)
    ensures i < |After(steps).value.calls| && After(steps).value.calls[i] == Sending(false)
  {
    hide After;
    var all := steps + [Begin(true, true)] + more;
    RunGuarded(all);
    assert all == steps + ([Begin(true, true)] + more);
    SendingWasSending(steps, [Begin(true, true)] + more, i);
  }

  /** After `more` steps, terminal call `n` has succeeded and incremental call `i` can still be sent. */
  ghost predicate SentLate(steps: seq<Step>, more: seq<Step>, n: nat, i: nat) {
    var late := After(steps + [Begin(true, true)] + more);
    && late.Some? && n < |late.value.calls| && i < |late.value.calls|
    && late.value.calls[n].terminal && Succeeded(late.value.calls[n])
    && late.value.calls[i] == Sending(false) && Enabled(late.value, Answer(i, true))
  }

  /**
   * The exact condition: an incremental reply can be sent after a terminal one that is allowed to begin has
   * succeeded if and only if an incremental send was in flight when the terminal one began.
   */
  lemma LateIncrementalIff(steps: seq<Step>)
    requires After(steps).Some? && !After(steps).value.started
    ensures (exists more, i :: SentLate(steps, more, |After(steps).value.calls|, i)) <==>
            Sending(false) in After(steps).value.calls
  {
    hide After;
    var calls := After(steps).value.calls;
    var n := |calls|;
    if more, i :| SentLate(steps, more, n, i) {
      LateWasInFlight(steps, more, i);
    }
    if Sending(false) in calls {
      var i :| 0 <= i < n && calls[i] == Sending(false);
      IncrementalMayFinishLate(steps, i);
      assert steps + [Begin(true, true)] + [Answer(n, true)] + [Settle(n)] ==
             steps + [Begin(true, true)] + [Answer(n, true), Settle(n)];
      assert SentLate(steps, [Answer(n, true), Settle(n)], n, i);
    }
  }

  lemma OneMore(steps: seq<Step>, s: Step, r: Reply)
    requires After(steps) == Some(r) && Enabled(r, s)
    ensures After(steps + [s]) == Some(Next(r, s))
  {
    assert (steps + [s])[..|steps|] == steps;
  }

  datatype Failure = InvalidState

  class NativeRuntimeServerOperation {
    const id: nat
    const owner: ServerSession.NativeRuntimeServerSession
    var terminalReplyStarted: bool
    ghost var calls: seq<Call>

    constructor (id: nat, owner: ServerSession.NativeRuntimeServerSession)
      ensures this.id == id && this.owner == owner && !terminalReplyStarted && calls == []
    {
      this.id, this.owner := id, owner;
      terminalReplyStarted, calls := false, [];
    }

    ghost function State(): Reply
      reads this, owner
    {
      Reply(!owner.closed, terminalReplyStarted, calls)
    }

    /** `_begin_reply`, with the session seen as it is now. */
    method BeginReply(terminal: bool) returns (r: Result<(), Failure>)
      modifies this
      ensures State() == Next(old(State()), Begin(terminal, !owner.closed))
      ensures r.Ok? <==> State().calls == old(calls) + [Sending(terminal)]
      ensures r.Ok? <==> !owner.closed && !old(terminalReplyStarted)
      ensures terminalReplyStarted == (old(terminalReplyStarted) || (terminal && r.Ok?))
      ensures r.Err? ==> calls == old(calls) + [Refused(terminal)]
    {
      if owner.closed || terminalReplyStarted {
        calls := calls + [Refused(terminal)];
        assert calls[|old(calls)|] == Refused(terminal);
        return Err(InvalidState);
      }
      if terminal {
        terminalReplyStarted := true;
      }
      calls := calls + [Sending(terminal)];
      r := Ok(());
    }

    /** What a terminal call does with its worker's answer: put the flag back, or retire the operation. */
    method SettleTerminal(ghost call: nat, ok: bool)
      requires owner.Valid() && call < |calls| && calls[call] == Answered(true, ok)
      modifies this, owner`frames, owner`history
      ensures owner.Valid()
      ensures State() == Next(old(State()), Settle(call))
      ensures owner.history == old(owner.history) + if ok then [Forget(id)] else []
      ensures terminalReplyStarted == (ok && old(terminalReplyStarted))
      ensures calls == old(calls)[call := Settled(true, ok)]
      ensures owner.frames == if ok then old(owner.frames) - {id} else old(owner.frames)
    {
      hide Table;
      if ok {
        owner.ForgetOperation(id);
      } else {
        terminalReplyStarted := false;
      }
      calls := calls[call := Settled(true, ok)];
    }
  }

  /** The first two calls can be such a run: an incremental one, then a terminal one that overtakes it. */
  lemma FirstReplyLate()
    ensures SentLate([Begin(false, true)], [Answer(1, true), Settle(1)], 1, 0)
  {
    var steps := [Begin(false, true)];
    OneMore([], Begin(false, true), Fresh);
    assert [] + [Begin(false, true)] == steps;
    assert After(steps).value.calls == [] + [Sending(false)] == [Sending(false)];
    IncrementalMayFinishLate(steps, 0);
    assert steps + [Begin(true, true)] + [Answer(1, true)] + [Settle(1)] ==
           steps + [Begin(true, true)] + [Answer(1, true), Settle(1)];
  }
}
