/** Absence and failure values shared by the profile model.

    The source signals failure in two ways: `get_response` returns `None`
    for a failed request, and the profile steps then raise a Python
    exception when they iterate, index or divide by such a value. Both are
    modelled here as plain values.
 */
module Wrappers {

  /** `None` of the source, or a value that was fetched. */
  datatype Option<+T> = None | Some(value: T)

  /** The Python exceptions a profile step can raise, by kind. */
  datatype Error =
    | NotIterable       // TypeError: iterating, or taking len() of, None
    | NotSubscriptable  // TypeError: indexing None
    | NoAttribute       // AttributeError: reading an attribute of None
    | IndexOutOfRange   // IndexError: [0] of an empty list
    | BadValue          // ValueError: int() or strptime() of malformed text
    | ZeroDivision      // ZeroDivisionError

  /** The value of an expression that either produces a value or raises. */
  datatype Result<+T> = Success(value: T) | Failure(error: Error)

  /** The outcome of a step that produces no value but may raise. */
  datatype Outcome = Pass | Fail(error: Error)

  /** Every element of `xs` was fetched. */
  predicate AllPresent<T>(xs: seq<Option<T>>)
  {
    forall i :: 0 <= i < |xs| ==> xs[i].Some?
  }

  /** The fetched values of `xs`, in order. */
  function Values<T>(xs: seq<Option<T>>): (vs: seq<T>)
    requires AllPresent(xs)
    ensures |vs| == |xs|
    ensures forall i :: 0 <= i < |xs| ==> xs[i] == Some(vs[i])
  {
    seq(|xs|, i requires 0 <= i < |xs| => xs[i].value)
  }
}
