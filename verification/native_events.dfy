/** Decoded native events (src/nnrp/native.py:3244-3267, 3600-3614, 6034-6057). */
module NativeEvents {
  import opened Header

  const SESSION_CLOSE: nat := 0x09
  const CANCEL: nat := 0x30
  const ABORT: nat := 0x31
  const SUPERSEDE: nat := 0x35
  const BUDGET_UPDATE: nat := 0x36
  const OBJECT_REF: nat := 0x42
  const OBJECT_RELEASE: nat := 0x43

  const EVENT_KIND_RESULT_PUSHED: nat := 6
  const EVENT_KIND_RESULT_DROPPED: nat := 7
  const EVENT_KIND_ERROR: nat := 10
  const EVENT_KIND_OPERATION_LIFECYCLE: nat := 14

  datatype OperationState =
    Accepted | Running | Partial | WaitingTool | Superseded | Cancelled | Failed | Completed

  /**
   * A runtime frame or a lifecycle record. `related` is the operation id of the diagnostic, `named` the operation
   * id in the frame's metadata: the old one for SUPERSEDE, zero when the metadata has none.
   */
  datatype Event =
    | Runtime(kind: nat, session: nat, messageType: MessageCode, frame: nat, related: nat, named: nat)
    | Lifecycle(kind: nat, session: nat, related: nat, state: OperationState)

  predicate IsSubmit(e: Event) {
    e.Runtime? && e.messageType == FRAME_SUBMIT
  }

  predicate ClosesSession(e: Event) {
    e.Runtime? && e.messageType == SESSION_CLOSE
  }

  function OperationId(e: Event): nat {
    match e
    case Runtime(_, _, messageType, _, related, named) =>
      if messageType == SUPERSEDE || related == 0 then named else related
    case Lifecycle(_, _, related, _) => related
  }

  predicate IsResult(e: Event) {
    || e.kind in {EVENT_KIND_RESULT_PUSHED, EVENT_KIND_RESULT_DROPPED, EVENT_KIND_ERROR}
    || (e.Lifecycle? && e.kind == EVENT_KIND_OPERATION_LIFECYCLE &&
        e.state in {Completed, Cancelled, Superseded, Failed})
  }

  /** What ends an operation, by number: a pushed or dropped result, an error, or a final lifecycle record. */
  lemma ResultByNumber(e: Event)
    ensures IsResult(e) <==>
            || e.kind in {6, 7, 10}
            || (e.Lifecycle? && e.kind == 14
                && (e.state.Completed? || e.state.Cancelled? || e.state.Superseded? || e.state.Failed?))
  {
  }

  /** The operation of an event: the diagnostic's, or the one the frame's metadata names. */
  lemma OperationByField(e: Event)
    ensures e.Lifecycle? ==> OperationId(e) == e.related
    ensures e.Runtime? && e.messageType == 0x35 ==> OperationId(e) == e.named
    ensures e.Runtime? && e.messageType != 0x35 && e.related != 0 ==> OperationId(e) == e.related
    ensures e.Runtime? && e.related == 0 ==> OperationId(e) == e.named
  {
  }

  predicate Matches(e: Event, session: nat, op: nat) {
    e.session == session && OperationId(e) == op
  }
}
