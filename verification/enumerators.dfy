/** Reading from an enumerator (EnumeratorExtensions.cs). An enumerator is
    its underlying sequence and the number of elements already consumed;
    `MoveNext` at the end leaves it where it is. */
module Enumerators {
  import opened Base

  datatype Enumerator<T> = Enumerator(source: seq<T>, position: nat) {
    /** The position never passes the end of the sequence. */
    predicate Valid() {
      position <= |source|
    }

    /** What is left to enumerate. */
    function Remaining(): seq<T>
      requires Valid()
    {
      source[position..]
    }
  }

  /** The message `ReadSingle` throws with. */
  const Finished: string := "enumerator finished"

  /** `ReadSingle()`: the next element and the enumerator advanced by one,
      or "enumerator finished" with the enumerator left exhausted. */
  function ReadSingle<T>(e: Enumerator<T>): (r: (Result<T>, Enumerator<T>))
    requires e.Valid()
    ensures r.1.Valid() && r.1.source == e.source
    ensures e.position < |e.source| ==> r.0 == Ok(e.source[e.position]) && r.1.position == e.position + 1
    ensures e.position == |e.source| ==> r.0 == Throw(GeneralError(Finished)) && r.1 == e
  {
    if e.position < |e.source| then (Ok(e.source[e.position]), e.(position := e.position + 1))
    else (Throw(GeneralError(Finished)), e)
  }

  /** `ReadToEnd()`, fully enumerated: every remaining element in order, and
      the exhausted enumerator. */
  function ReadToEnd<T>(e: Enumerator<T>): (r: (seq<T>, Enumerator<T>))
    requires e.Valid()
    ensures r.0 == e.Remaining()
    ensures r.1 == e.(position := |e.source|)
    decreases |e.source| - e.position
  {
    var (current, next) := ReadSingle(e);
    if current.Ok? then
      var (rest, final) := ReadToEnd(next);
      ([current.value] + rest, final)
    else ([], next)
  }

  /** Reading `count` elements with `ReadSingle`, stopping at the first
      failure (the remainder of the lazy `Select` is never reached). */
  function ReadSingles<T>(e: Enumerator<T>, count: nat): (r: (Partial<T>, Enumerator<T>))
    requires e.Valid()
    ensures r.1.Valid() && r.1.source == e.source
    ensures count <= |e.Remaining()| ==>
      r.0 == Partial(e.Remaining()[..count], None) && r.1.position == e.position + count
    ensures count > |e.Remaining()| ==>
      r.0 == Partial(e.Remaining(), Some(GeneralError(Finished))) && r.1.position == |e.source|
    decreases count
  {
    if count == 0 then (Partial([], None), e)
    else
      var (current, next) := ReadSingle(e);
      match current
      case Throw(err) => (Partial([], Some(err)), next)
      case Ok(v) =>
        var (rest, final) := ReadSingles(next, count - 1);
        assert next.Remaining() == e.Remaining()[1..];
        (Partial([v] + rest.items, rest.failure), final)
  }

  /** `ReadMany(count)`, fully enumerated: `Enumerable.Range` rejects a
      negative count before anything is read. */
  function ReadMany<T>(e: Enumerator<T>, count: int): (r: (Partial<T>, Enumerator<T>))
    requires e.Valid()
    ensures count < 0 ==> r == (Partial([], Some(ArgumentOutOfRange("count"))), e)
    ensures 0 <= count <= |e.Remaining()| ==> r.0 == Partial(e.Remaining()[..count], None)
    ensures 0 <= count && count > |e.Remaining()| ==> r.0.failure == Some(GeneralError(Finished))
  {
    if count < 0 then (Partial([], Some(ArgumentOutOfRange("count"))), e)
    else ReadSingles(e, count)
  }

  /** Once `ReadToEnd` has run, any further `ReadSingle` throws. */
  lemma ReadSingleAfterReadToEndThrows<T>(e: Enumerator<T>)
    requires e.Valid()
    ensures ReadSingle(ReadToEnd(e).1).0 == Throw(GeneralError(Finished))
  {
  }

  /** Reading n elements and then the rest gives back everything that
      remained, in order. */
  lemma {:induction false} ReadManyThenReadToEnd<T>(e: Enumerator<T>, n: nat)
    requires e.Valid() && n <= |e.Remaining()|
    ensures ReadSingles(e, n).0.items + ReadToEnd(ReadSingles(e, n).1).0 == e.Remaining()
  {
    var after := ReadSingles(e, n).1;
    assert after.Remaining() == e.Remaining()[n..];
  }
}
