/** The table from operation id to submit frame id that both native sessions keep. */
module FrameTable {

  /** What happens to a table: an operation is submitted, one is retired, one submit frame is cancelled, all go. */
  datatype Entry = Remember(op: nat, frame: nat) | Forget(op: nat) | ForgetFrame(frame: nat) | Clear

  function Apply(table: map<nat, nat>, e: Entry): map<nat, nat> {
    match e
    case Remember(op, frame) => table[op := frame]
    case Forget(op) => table - {op}
    case ForgetFrame(frame) => map op | op in table && table[op] != frame :: table[op]
    case Clear => map[]
  }

  function Table(history: seq<Entry>): map<nat, nat> {
    if history == [] then map[] else Apply(Table(history[..|history| - 1]), history[|history| - 1])
  }

  lemma {:induction false} TableAppend(history: seq<Entry>, more: seq<Entry>)
    ensures more == [] ==> Table(history + more) == Table(history)
    ensures more != [] ==>
            Table(history + more) == Apply(Table(history + more[..|more| - 1]), more[|more| - 1])
  {
    if more == [] {
      assert history + more == history;
    } else {
      assert (history + more)[..|history + more| - 1] == history + more[..|more| - 1];
    }
  }

  predicate Retires(e: Entry, op: nat, frame: nat) {
    match e
    case Remember(_, _) => false
    case Forget(o) => o == op
    case ForgetFrame(f) => f == frame
    case Clear => true
  }

  /** Event `i` submitted `op` under `frame`, and nothing later submitted it again or retired it. */
  ghost predicate LiveSince(history: seq<Entry>, op: nat, frame: nat, i: nat) {
    && i < |history|
    && history[i] == Remember(op, frame)
    && forall j :: i < j < |history| ==>
         !Retires(history[j], op, frame) && !(history[j].Remember? && history[j].op == op)
  }

  ghost predicate Live(history: seq<Entry>, op: nat, frame: nat) {
    exists i: nat :: LiveSince(history, op, frame, i)
  }

  /** The table maps exactly the submitted and not yet retired operations to their latest submit frame id. */
  lemma {:induction false} TableIsLive(history: seq<Entry>, op: nat, frame: nat)
    ensures (op in Table(history) && Table(history)[op] == frame) <==> Live(history, op, frame)
  {
    if history != [] {
      var front, last := history[..|history| - 1], history[|history| - 1];
      TableIsLive(front, op, frame);
      if last == Remember(op, frame) {
        assert LiveSince(history, op, frame, |front|);
      } else if op in Table(history) && Table(history)[op] == frame {
        var i: nat :| LiveSince(front, op, frame, i);
        assert LiveSince(history, op, frame, i);
      } else if Live(history, op, frame) {
        var i: nat :| LiveSince(history, op, frame, i);
        assert i < |front|;
        assert LiveSince(front, op, frame, i);
      }
    }
  }
}
