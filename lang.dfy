/** Stand-ins for the Java language features the job code relies on:
    nullable references, exceptions and `Stream.anyMatch`. */
module Lang {

  /** A value that may be absent (a Java `null`). */
  datatype Option<+T> = None | Some(value: T)

  /** The outcome of a query that may throw instead of answering. */
  datatype Result<+T, +E> = Ok(value: T) | Err(error: E)

  /** The outcome of a `void` operation that may throw. */
  datatype Outcome<+E> = Pass | Fail(error: E)

  /** `xs.stream().anyMatch(p)`: examines the elements in order and stops at
      the first one that satisfies `p`. */
  function AnyMatch<T>(xs: seq<T>, p: T -> bool): (r: bool)
    ensures r <==> exists k :: 0 <= k < |xs| && p(xs[k])
  {
    if xs == [] then false
    else if p(xs[0]) then true
    else
      assert forall k :: 0 < k < |xs| ==> xs[k] == xs[1..][k - 1];
      AnyMatch(xs[1..], p)
  }

  /** Some element of a non-empty set: the next one a Java set iterator
      hands out, in an order the model leaves open. */
  method Pick<T>(s: set<T>) returns (x: T)
    requires s != {}
    ensures x in s
  {
    x :| x in s;
  }
}
