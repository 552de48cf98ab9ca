/** What a Python call can do: return a value or raise. */
module Outcomes {

  /** The exceptions the modelled code distinguishes. */
  datatype Error =
    | ValueError      // malformed, naive or otherwise refused input
    | OverflowError   // a date outside years 1 to 9999; not a ValueError
    | LookupFailed    // Python's KeyError
    | NotModelled     // input outside the part of the source that is modelled

  datatype Outcome<+T> = Returns(value: T) | Raises(error: Error) {

    predicate IsFailure() {
      Raises?
    }

    function PropagateFailure<U>(): Outcome<U>
      requires Raises?
    {
      Raises(error)
    }

    function Extract(): T
      requires Returns?
    {
      value
    }
  }

  datatype Option<+T> = None | Some(value: T) {

    predicate IsFailure() {
      None?
    }

    function PropagateFailure<U>(): Option<U>
      requires None?
    {
      None
    }

    function Extract(): T
      requires Some?
    {
      value
    }
  }

  /** Python's `if differs: m.append(x)`. */
  function Note<T(!new)>(m: seq<T>, differs: bool, x: T): (r: seq<T>)
    ensures forall y :: y in r <==> y in m || (differs && y == x)
  {
    if differs then m + [x] else m
  }
}
