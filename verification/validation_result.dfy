/** `ValidationResult`: the outcome of validating a service collection, a
    list of error messages combined by concatenation. */
module ValidationResults {

  /** The record: its errors, in the order they were reported. The
      enumerable constructor keeps that order, so both constructors are
      this one. */
  datatype ValidationResult = ValidationResult(errors: seq<string>)

  /** `IsSuccess`: no error was reported. */
  predicate IsSuccess(v: ValidationResult) {
    |v.errors| == 0
  }

  /** `ValidationResult.Success`. */
  const Success: ValidationResult := ValidationResult([])

  /** `operator +`: the left errors, then the right ones. */
  function Plus(left: ValidationResult, right: ValidationResult): (r: ValidationResult)
    ensures |r.errors| == |left.errors| + |right.errors|
    ensures r.errors[..|left.errors|] == left.errors
    ensures r.errors[|left.errors|..] == right.errors
  {
    ValidationResult(left.errors + right.errors)
  }

  /** `Success` reports nothing. */
  lemma SuccessSucceeds()
    ensures IsSuccess(Success) && Success.errors == []
  {
  }

  /** `+` is associative and `Success` is its identity on both sides: the
      results form a monoid. The law is about the error sequences, which is
      what a result holds here; the record's own `Equals` compares its
      `Errors` lists by reference, so two results built apart are not
      `Equals` even when they hold the same errors. */
  lemma PlusMonoid(a: ValidationResult, b: ValidationResult, c: ValidationResult)
    ensures Plus(Plus(a, b), c) == Plus(a, Plus(b, c))
    ensures Plus(Success, a) == a && Plus(a, Success) == a
  {
    assert (a.errors + b.errors) + c.errors == a.errors + (b.errors + c.errors);
    assert [] + a.errors == a.errors;
    assert a.errors + [] == a.errors;
  }

  /** A combination succeeds exactly when both parts do. */
  lemma PlusSucceeds(a: ValidationResult, b: ValidationResult)
    ensures IsSuccess(Plus(a, b)) <==> IsSuccess(a) && IsSuccess(b)
  {
  }

  /** `Aggregate(Success, (v1, v2) => v1 + v2)`: the results combined left
      to right, starting from `Success`. */
  function Aggregate(acc: ValidationResult, results: seq<ValidationResult>): ValidationResult
    decreases |results|
  {
    if |results| == 0 then acc else Aggregate(Plus(acc, results[0]), results[1..])
  }

  /** All the errors of some results, in order. */
  function AllErrors(results: seq<ValidationResult>): seq<string>
    decreases |results|
  {
    if |results| == 0 then [] else results[0].errors + AllErrors(results[1..])
  }

  /** The aggregate holds the accumulated errors followed by every result's
      errors in order, and succeeds exactly when every part does. */
  lemma AggregateErrors(acc: ValidationResult, results: seq<ValidationResult>)
    ensures Aggregate(acc, results).errors == acc.errors + AllErrors(results)
    ensures IsSuccess(Aggregate(acc, results)) <==> IsSuccess(acc) && forall i :: 0 <= i < |results| ==> IsSuccess(results[i])
  {
    AggregateAppends(acc, results);
    AllErrorsEmpty(results);
  }

  lemma {:induction false} AggregateAppends(acc: ValidationResult, results: seq<ValidationResult>)
    ensures Aggregate(acc, results).errors == acc.errors + AllErrors(results)
    decreases |results|
  {
    if |results| == 0 {
      assert acc.errors + [] == acc.errors;
    } else {
      AggregateAppends(Plus(acc, results[0]), results[1..]);
      assert (acc.errors + results[0].errors) + AllErrors(results[1..]) == acc.errors + (results[0].errors + AllErrors(results[1..]));
    }
  }

  /** No error at all exactly when every result succeeds. */
  lemma {:induction false} AllErrorsEmpty(results: seq<ValidationResult>)
    ensures AllErrors(results) == [] <==> forall i :: 0 <= i < |results| ==> IsSuccess(results[i])
    decreases |results|
  {
    if |results| > 0 {
      AllErrorsEmpty(results[1..]);
      assert forall i :: 1 <= i < |results| ==> results[i] == results[1..][i - 1];
    }
  }
}
