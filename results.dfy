/** Option and the outcome of a computation that may throw. */
module Results {

  datatype Option<+T> = None | Some(value: T)

  /** The outcome of evaluating a piece of the transformer: either a value, or a
      JavaScript runtime exception (a TypeError from reading a property of
      `undefined` or `null`). Exceptions carry no payload here: their text comes
      from the JavaScript engine. `:-` propagates a throw, as an exception does. */
  datatype Outcome<+T> = Done(value: T) | Threw {

    predicate IsFailure() {
      Threw?
    }

    function PropagateFailure<U>(): Outcome<U>
      requires Threw?
    {
      Threw
    }

    function Extract(): T
      requires Done?
    {
      value
    }
  }

  function Min(a: int, b: int): int {
    if a <= b then a else b
  }
}
