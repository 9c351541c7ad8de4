/** Failure-compatible results shared by every module. */
module Outcomes {

  datatype Option<+T> = None | Some(value: T)

  /** What a Python call does: it returns a value or it raises. */
  datatype Result<+T, +E> = Ok(value: T) | Err(error: E) {
    predicate IsFailure() {
      Err?
    }

    function PropagateFailure<U>(): Result<U, E>
      requires Err?
    {
      Err(error)
    }

    function Extract(): T
      requires Ok?
    {
      value
    }
  }

  /** Items already produced, followed by the rest or by its fault: what a loop has done before what it has left. */
  function Prepend<T, E>(done: seq<T>, rest: Result<seq<T>, E>): Result<seq<T>, E> {
    match rest
    case Ok(more) => Ok(done + more)
    case Err(e) => Err(e)
  }

  lemma PrependNone<T, E>(rest: Result<seq<T>, E>)
    ensures Prepend([], rest) == rest
  {
    if rest.Ok? {
      assert [] + rest.value == rest.value;
    }
  }

  lemma PrependMore<T, E>(done: seq<T>, more: seq<T>, rest: Result<seq<T>, E>)
    ensures Prepend(done, Prepend(more, rest)) == Prepend(done + more, rest)
  {
    if rest.Ok? {
      assert done + (more + rest.value) == done + more + rest.value;
    }
  }

  lemma PrependOne<T, E>(done: seq<T>, item: T, rest: Result<seq<T>, E>)
    ensures Prepend(done, Prepend([item], rest)) == Prepend(done + [item], rest)
  {
    PrependMore(done, [item], rest);
  }

  /** The same for a loop that also yields where it stopped. */
  function PrependTo<T, A, E>(done: seq<T>, rest: Result<(seq<T>, A), E>): Result<(seq<T>, A), E> {
    match rest
    case Ok((more, end)) => Ok((done + more, end))
    case Err(e) => Err(e)
  }

  lemma PrependToErr<T, A, E>(done: seq<T>, rest: Result<(seq<T>, A), E>)
    ensures rest.Err? ==> PrependTo(done, rest) == Err(rest.error)
  {
  }

  lemma PrependToNone<T, A, E>(rest: Result<(seq<T>, A), E>)
    ensures PrependTo([], rest) == rest
  {
    if rest.Ok? {
      assert [] + rest.value.0 == rest.value.0;
    }
  }

  lemma PrependToOne<T, A, E>(done: seq<T>, item: T, rest: Result<(seq<T>, A), E>)
    ensures PrependTo(done, PrependTo([item], rest)) == PrependTo(done + [item], rest)
  {
    if rest.Ok? {
      assert done + ([item] + rest.value.0) == done + [item] + rest.value.0;
    }
  }
}
