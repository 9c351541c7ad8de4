/** Results of cancelled work are dropped for a bounded while (src/nnrp/client/native.py:720-747). */
module Suppression {
  import opened Outcomes
  import opened Sequences

  const MAX_SUPPRESSIONS: nat := 4096

  /** The keys of an insertion-ordered dictionary after one more id: a key already there keeps its place. */
  function Remember(values: seq<nat>, id: nat): seq<nat> {
    if id in values then values else LastOf(values + [id], MAX_SUPPRESSIONS)
  }

  /** The keys after a history of ids. */
  function After(history: seq<nat>): seq<nat> {
    if history == [] then [] else Remember(After(history[..|history| - 1]), history[|history| - 1])
  }

  /** The ids of a history that were absent when they were added. */
  function Fresh(history: seq<nat>): seq<nat> {
    if history == [] then []
    else
      var front, last := history[..|history| - 1], history[|history| - 1];
      Fresh(front) + if last in After(front) then [] else [last]
  }

  /** The keys are the last 4096 insertions of ids that were absent when added, each once. */
  lemma {:induction false} AfterIsLastFresh(history: seq<nat>)
    ensures After(history) == LastOf(Fresh(history), MAX_SUPPRESSIONS)
    ensures NoRepeats(After(history)) && |After(history)| <= MAX_SUPPRESSIONS
  {
    if history != [] {
      var front, last := history[..|history| - 1], history[|history| - 1];
      AfterIsLastFresh(front);
      if last in After(front) {
        assert Fresh(front) + [] == Fresh(front);
      } else {
        NextLast(Fresh(front), last, MAX_SUPPRESSIONS);
        assert NoRepeats(After(front) + [last]);
      }
    }
  }

  lemma NextLast(s: seq<nat>, x: nat, n: nat)
    requires n > 0
    ensures LastOf(LastOf(s, n) + [x], n) == LastOf(s + [x], n)
  {
  }

  lemma {:induction false} FreshGrows(history: seq<nat>, more: seq<nat>)
    ensures Fresh(history) <= Fresh(history + more)
  {
    if more == [] {
      assert history + more == history;
    } else {
      FreshGrows(history, more[..|more| - 1]);
      assert (history + more)[..|history + more| - 1] == history + more[..|more| - 1];
    }
  }

  /** What arrives after an id only ever adds ids of its own. */
  lemma {:induction false} FreshFrom(history: seq<nat>, more: seq<nat>, k: nat)
    requires |Fresh(history)| <= k < |Fresh(history + more)|
    ensures Fresh(history + more)[k] in more
  {
    assert history + [] == history;
    if more != [] {
      var front := more[..|more| - 1];
      assert (history + more)[..|history + more| - 1] == history + front;
      if k < |Fresh(history + front)| {
        FreshFrom(history, front, k);
        assert Fresh(history + more)[k] == Fresh(history + front)[k];
        assert more == front + [more[|more| - 1]];
      } else {
        assert Fresh(history + more)[k] == more[|more| - 1];
      }
    }
  }

  lemma FreshOne(history: seq<nat>, id: nat)
    requires id !in After(history)
    ensures Fresh(history + [id]) == Fresh(history) + [id]
  {
    assert (history + [id])[..|history|] == history;
  }

  /**
   * An id that was absent when added stays suppressed until 4096 further absent ids have arrived, and then it is
   * gone unless it was added again.
   */
  lemma StaysUntil(history: seq<nat>, id: nat, more: seq<nat>)
    requires id !in After(history)
    ensures var before, now := Fresh(history + [id]), Fresh(history + [id] + more);
            && before == Fresh(history) + [id] && before <= now
            && (|now| - |before| < 4096 ==> id in After(history + [id] + more))
            && (|now| - |before| >= 4096 && id !in more ==> id !in After(history + [id] + more))
  {
    hide After, Fresh;
    var added := history + [id];
    var before, now := Fresh(added), Fresh(added + more);
    FreshOne(history, id);
    FreshGrows(added, more);
    AfterIsLastFresh(added + more);
    var at := |before| - 1;
    assert now[at] == id;
    if |now| - |before| < MAX_SUPPRESSIONS {
      var kept := LastOf(now, MAX_SUPPRESSIONS);
      assert kept[if |now| <= MAX_SUPPRESSIONS then at else at - (|now| - MAX_SUPPRESSIONS)] == id;
    } else if id !in more {
      forall k | |now| - MAX_SUPPRESSIONS <= k < |now|
        ensures now[k] != id
      {
        FreshFrom(added, more, k);
      }
    }
  }

  lemma OneMore(history: seq<nat>, id: nat)
    ensures After(history + [id]) == Remember(After(history), id)
  {
    assert (history + [id])[..|history|] == history;
  }

  /** Adding a suppressed id again changes nothing: its time is not extended. */
  lemma AgainIsNoRenewal(history: seq<nat>, id: nat)
    requires id in After(history)
    ensures After(history + [id]) == After(history) && Fresh(history + [id]) == Fresh(history)
  {
    assert (history + [id])[..|history|] == history;
    assert Fresh(history) + [] == Fresh(history);
  }

  /** The keys held for a session. */
  function Of(lists: map<nat, seq<nat>>, session: nat): seq<nat> {
    if session in lists then lists[session] else []
  }

  class CancelledResults {
    var cancelledFrames: map<nat, seq<nat>>
    var cancelledOperations: map<nat, seq<nat>>
    ghost var frameHistory: map<nat, seq<nat>>
    ghost var operationHistory: map<nat, seq<nat>>

    ghost predicate Valid()
      reads this
    {
      && (forall s :: Of(cancelledFrames, s) == After(Of(frameHistory, s)))
      && (forall s :: Of(cancelledOperations, s) == After(Of(operationHistory, s)))
    }

    constructor ()
      ensures Valid() && frameHistory == map[] && operationHistory == map[]
    {
      cancelledFrames, cancelledOperations, frameHistory, operationHistory := map[], map[], map[], map[];
    }

    /** Removes oldest keys until at most `limit` are left. */
    static method Evict(values: seq<nat>, limit: nat) returns (kept: seq<nat>)
      ensures kept == LastOf(values, limit)
    {
      kept := values;
      while |kept| > limit
        invariant |kept| <= |values| && kept == values[|values| - |kept|..]
        invariant |kept| >= limit || kept == values
      {
        kept := kept[1..];
      }
    }

    /** `_remember_cancelled_result_identity` on one of the two dictionaries. */
    static method RememberIdentity(lists: map<nat, seq<nat>>, session: nat, value: nat)
      returns (r: map<nat, seq<nat>>)
      requires |Of(lists, session)| <= MAX_SUPPRESSIONS
      ensures r == lists[session := Remember(Of(lists, session), value)]
    {
      var values := if session in lists then lists[session] else [];
      if value !in values {
        values := values + [value];
      }
      values := Evict(values, MAX_SUPPRESSIONS);
      assert values == Remember(Of(lists, session), value);
      r := lists[session := values];
    }

    /** A session without an id remembers nothing. */
    method RememberFrame(session: Option<nat>, frame: nat)
      requires Valid()
      modifies this`cancelledFrames, this`frameHistory
      ensures Valid()
      ensures frameHistory == if session.None? then old(frameHistory)
                              else old(frameHistory)[session.value := Of(old(frameHistory), session.value) + [frame]]
    {
      if session.Some? {
        ghost var past := Of(frameHistory, session.value);
        AfterIsLastFresh(past);
        OneMore(past, frame);
        ghost var before := cancelledFrames;
        cancelledFrames := RememberIdentity(cancelledFrames, session.value, frame);
        frameHistory := frameHistory[session.value := past + [frame]];
        assert forall s :: s != session.value ==> Of(cancelledFrames, s) == Of(before, s);
      }
    }

    method RememberOperation(session: Option<nat>, operation: nat)
      requires Valid()
      modifies this`cancelledOperations, this`operationHistory
      ensures Valid()
      ensures operationHistory ==
              if session.None? then old(operationHistory)
              else old(operationHistory)[session.value := Of(old(operationHistory), session.value) + [operation]]
    {
      if session.Some? {
        ghost var past := Of(operationHistory, session.value);
        AfterIsLastFresh(past);
        OneMore(past, operation);
        ghost var before := cancelledOperations;
        cancelledOperations := RememberIdentity(cancelledOperations, session.value, operation);
        operationHistory := operationHistory[session.value := past + [operation]];
        assert forall s :: s != session.value ==> Of(cancelledOperations, s) == Of(before, s);
      }
    }

    /** `_is_cancelled_result`: a result is dropped if its frame or its operation is among the last 4096 cancelled. */
    method IsCancelledResult(session: Option<nat>, operation: nat, frame: nat) returns (r: bool)
      requires Valid()
      ensures r <==>
              session.Some? &&
              (|| frame in LastOf(Fresh(Of(frameHistory, session.value)), 4096)
               || operation in LastOf(Fresh(Of(operationHistory, session.value)), 4096))
    {
      if session.None? {
        return false;
      }
      AfterIsLastFresh(Of(frameHistory, session.value));
      AfterIsLastFresh(Of(operationHistory, session.value));
      r := frame in Of(cancelledFrames, session.value) || operation in Of(cancelledOperations, session.value);
    }
  }
}
