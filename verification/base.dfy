/** Shared vocabulary of the model: object identities, nullable references,
    the exceptions the library raises, outcomes of calls that may throw, and
    the pairwise sequence comparison (`Enumerable.SequenceEqual`) that most
    comparers of the library are built on. */
module Base {

  /** Identity of a heap object. Two objects are the same reference exactly
      when they are equal as values, identity included; two separately built
      objects with the same contents carry different identities. */
  type Id = nat

  /** A reference that may be null. */
  datatype Option<+T> = None | Some(value: T)

  /** The exceptions raised by the modelled code, or by delegates supplied by
      its callers (`UserException`). */
  datatype Exception =
    | GeneralError(message: string)
    | InvalidOperation(message: string)
    | NotImplemented(message: string)
    | ArgumentError(message: string)
    | ArgumentNull(paramName: string)
    | ArgumentOutOfRange(paramName: string)
    | IndexOutOfRange
    | InvalidCast
    | NullReference
    | KeyNotFound
    | StackOverflow
    | UserException(tag: nat)

  /** What `Dictionary.Add` throws for a key that is already present. */
  const DuplicateKey: Exception := ArgumentError("An item with the same key has already been added.")

  /** The outcome of a call: the value it returned, or the exception it threw.
      A parameterless delegate (`Func<T>`) is represented by the outcome of
      calling it, so that "the delegate is not called" becomes observable as
      "its exception does not surface". */
  datatype Result<+T> = Ok(value: T) | Throw(error: Exception) {

    predicate IsFailure() {
      Throw?
    }

    function PropagateFailure<U>(): Result<U>
      requires Throw?
    {
      Throw(error)
    }

    function Extract(): T
      requires Ok?
    {
      value
    }
  }

  /** A lazily produced sequence after full enumeration: the items it yielded,
      in order, and the exception that ended the enumeration, if any. */
  datatype Partial<T> = Partial(items: seq<T>, failure: Option<Exception>)

  /** `Enumerable.SequenceEqual(xs, ys, comparer)` over two collections: the
      counts are compared first, then the elements pairwise from the left,
      stopping at the first unequal pair. */
  function SequenceEqual<T>(xs: seq<T>, ys: seq<T>, eq: (T, T) -> bool): bool {
    |xs| == |ys| && Pairwise(xs, ys, eq)
  }

  function Pairwise<T>(xs: seq<T>, ys: seq<T>, eq: (T, T) -> bool): bool
    requires |xs| == |ys|
  {
    if |xs| == 0 then true else eq(xs[0], ys[0]) && Pairwise(xs[1..], ys[1..], eq)
  }

  /** The comparison holds exactly when the lengths agree and every pair of
      elements at the same position is equal under the element comparer. */
  lemma {:induction false} SequenceEqualSpec<T>(xs: seq<T>, ys: seq<T>, eq: (T, T) -> bool)
    ensures SequenceEqual(xs, ys, eq) <==> |xs| == |ys| && forall i :: 0 <= i < |xs| ==> eq(xs[i], ys[i])
  {
    if |xs| == |ys| {
      PairwiseSpec(xs, ys, eq);
    }
  }

  lemma {:induction false} PairwiseSpec<T>(xs: seq<T>, ys: seq<T>, eq: (T, T) -> bool)
    requires |xs| == |ys|
    ensures Pairwise(xs, ys, eq) <==> forall i :: 0 <= i < |xs| ==> eq(xs[i], ys[i])
  {
    if |xs| > 0 {
      PairwiseSpec(xs[1..], ys[1..], eq);
      assert forall i :: 1 <= i < |xs| ==> xs[1..][i - 1] == xs[i] && ys[1..][i - 1] == ys[i];
    }
  }
}
