/** Prefix and suffix stripping and joining (StringExtensions.cs), with
    ordinal comparison. */
module Strings {
  import opened Base

  /** The message of the exception `Skip` throws. */
  function SkipMessage(input: string, pattern: string): string {
    "Invalid input: " + input + ". Expected start element: " + pattern
  }

  /** The message of the exception `SkipLast` throws. */
  function SkipLastMessage(input: string, pattern: string): string {
    "Invalid input: " + input + ". Expected last element: " + pattern
  }

  /** `input.StartsWith(pattern)`, ordinal. */
  predicate StartsWith(input: string, pattern: string) {
    |pattern| <= |input| && input[..|pattern|] == pattern
  }

  /** `input.EndsWith(pattern)`, ordinal. */
  predicate EndsWith(input: string, pattern: string) {
    |pattern| <= |input| && input[|input| - |pattern|..] == pattern
  }

  /** `Skip(pattern, raiseIfNotEquals)`: removes a leading `pattern`. */
  function Skip(input: string, pattern: string, raiseIfNotEquals: bool): (r: Result<string>)
    ensures StartsWith(input, pattern) ==> r.Ok? && pattern + r.value == input && |r.value| == |input| - |pattern|
    ensures !StartsWith(input, pattern) && !raiseIfNotEquals ==> r == Ok(input)
    ensures !StartsWith(input, pattern) && raiseIfNotEquals ==> r == Throw(ArgumentError(SkipMessage(input, pattern)))
  {
    if StartsWith(input, pattern) then
      var rest := input[|pattern|..];
      assert input == input[..|pattern|] + rest;
      Ok(rest)
    else if raiseIfNotEquals then Throw(ArgumentError(SkipMessage(input, pattern)))
    else Ok(input)
  }

  /** `SkipLast(pattern, raiseIfNotEquals)`: removes a trailing `pattern`. */
  function SkipLast(input: string, pattern: string, raiseIfNotEquals: bool): (r: Result<string>)
    ensures EndsWith(input, pattern) ==> r.Ok? && r.value + pattern == input && |r.value| == |input| - |pattern|
    ensures !EndsWith(input, pattern) && !raiseIfNotEquals ==> r == Ok(input)
    ensures !EndsWith(input, pattern) && raiseIfNotEquals ==> r == Throw(ArgumentError(SkipLastMessage(input, pattern)))
  {
    if EndsWith(input, pattern) then
      var rest := input[..|input| - |pattern|];
      assert input == rest + input[|input| - |pattern|..];
      Ok(rest)
    else if raiseIfNotEquals then Throw(ArgumentError(SkipLastMessage(input, pattern)))
    else Ok(input)
  }

  /** The empty pattern always matches, so neither operation changes the input. */
  lemma EmptyPatternChangesNothing(input: string, raiseIfNotEquals: bool)
    ensures Skip(input, "", raiseIfNotEquals) == Ok(input)
    ensures SkipLast(input, "", raiseIfNotEquals) == Ok(input)
  {
    assert input[..|input|] == input;
  }

  /** `Skip` undoes prefixing and `SkipLast` undoes suffixing. */
  lemma SkipUndoesConcat(pattern: string, s: string, raiseIfNotEquals: bool)
    ensures Skip(pattern + s, pattern, raiseIfNotEquals) == Ok(s)
    ensures SkipLast(s + pattern, pattern, raiseIfNotEquals) == Ok(s)
  {
    assert (pattern + s)[..|pattern|] == pattern;
    assert (s + pattern)[|s + pattern| - |pattern|..] == pattern;
    var r := Skip(pattern + s, pattern, raiseIfNotEquals);
    assert pattern + r.value == pattern + s;
    assert r.value == (pattern + r.value)[|pattern|..];
    var q := SkipLast(s + pattern, pattern, raiseIfNotEquals);
    assert q.value == (q.value + pattern)[..|s|];
  }

  /** `string.Join(separator, values)`: the separator between consecutive
      values only. */
  function Join(separator: string, values: seq<string>): (r: string)
    ensures |values| == 0 ==> r == ""
    ensures |values| == 1 ==> r == values[0]
    decreases |values|
  {
    if |values| == 0 then ""
    else if |values| == 1 then values[0]
    else Join(separator, values[..|values| - 1]) + separator + values[|values| - 1]
  }

  /** `Join(separator, selector)`: joins the selected strings. */
  function JoinBy<T>(source: seq<T>, separator: string, selector: T -> string): string {
    Join(separator, seq(|source|, i requires 0 <= i < |source| => selector(source[i])))
  }

  /** `part` occurs in `s` at position `i`. */
  predicate OccursAt(s: string, part: string, i: nat) {
    i + |part| <= |s| && s[i..i + |part|] == part
  }

  /** An occurrence stays one, further right, after a prefix. */
  lemma ShiftOccurs(prefix: string, s: string, part: string, i: nat)
    requires OccursAt(s, part, i)
    ensures OccursAt(prefix + s, part, |prefix| + i)
  {
    assert (prefix + s)[|prefix| + i..|prefix| + i + |part|] == s[i..i + |part|];
  }

  /** The middle of a concatenation occurs right after the first part. */
  lemma PrefixOccurs(a: string, b: string, c: string)
    ensures OccursAt(a + (b + c), b, |a|)
  {
    assert (a + (b + c))[|a|..|a| + |b|] == b;
  }

  /** Every value occurs in the join. */
  lemma {:induction false} JoinHasPart(separator: string, values: seq<string>, k: nat) returns (i: nat)
    requires k < |values|
    ensures OccursAt(Join(separator, values), values[k], i)
    decreases |values|
  {
    if |values| == 1 {
      i := 0;
      assert Join(separator, values)[0..|values[0]|] == values[0];
    } else {
      var init := values[..|values| - 1];
      var front := Join(separator, init) + separator;
      assert Join(separator, values) == front + values[|values| - 1];
      if k == |values| - 1 {
        i := |front|;
        assert (front + values[k])[|front|..|front| + |values[k]|] == values[k];
      } else {
        i := JoinHasPart(separator, init, k);
        assert Join(separator, values)[i..i + |values[k]|] == Join(separator, init)[i..i + |values[k]|];
      }
    }
  }

  /** The separator sits between the first value and the join of the others. */
  lemma {:induction false} JoinCons(separator: string, x: string, xs: seq<string>)
    requires |xs| > 0
    ensures Join(separator, [x] + xs) == x + separator + Join(separator, xs)
    decreases |xs|
  {
    var all := [x] + xs;
    if |xs| == 1 {
      assert all[..1] == [x];
    } else {
      var init := xs[..|xs| - 1];
      assert all[..|all| - 1] == [x] + init;
      assert all[|all| - 1] == xs[|xs| - 1];
      JoinCons(separator, x, init);
    }
  }

  /** The total length: every value plus one separator per gap. */
  lemma {:induction false} JoinLength(separator: string, values: seq<string>)
    requires |values| > 0
    ensures |Join(separator, values)| == TotalLength(values) + (|values| - 1) * |separator|
    decreases |values|
  {
    if |values| > 1 {
      JoinLength(separator, values[..|values| - 1]);
      TotalLengthSnoc(values[..|values| - 1], values[|values| - 1]);
      assert values[..|values| - 1] + [values[|values| - 1]] == values;
    }
  }

  /** The summed lengths of some strings. */
  function TotalLength(values: seq<string>): nat {
    if |values| == 0 then 0 else |values[0]| + TotalLength(values[1..])
  }

  lemma {:induction false} TotalLengthSnoc(values: seq<string>, v: string)
    ensures TotalLength(values + [v]) == TotalLength(values) + |v|
    decreases |values|
  {
    if |values| == 0 {
      assert values + [v] == [v];
    } else {
      assert (values + [v])[1..] == values[1..] + [v];
      TotalLengthSnoc(values[1..], v);
    }
  }
}
