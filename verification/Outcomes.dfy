/** How a modelled piece of C++ ends. */
module Outcomes {

  datatype Option<+T> = None | Some(value: T)

  /** The reasons for which a command stops early. The first two are `std::logic_error`
      exceptions, which the dispatcher catches; the third is a plain `return "-1"`. */
  datatype Abort = InvalidArgument | OutOfRange | EarlyReturn

  /** `Undefined` is undefined behaviour: reading past the last token or popping an
      empty list. Nothing is promised about what follows it. */
  datatype Outcome<+T> = Done(value: T) | Threw(cause: Abort) | Undefined {

    predicate IsFailure() {
      !Done?
    }

    function PropagateFailure<U>(): Outcome<U>
      requires IsFailure()
    {
      if Threw? then Threw(cause) else Undefined
    }

    function Extract(): T
      requires Done?
    {
      value
    }
  }
}
