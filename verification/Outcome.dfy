/** How a call of the control library can end.
    The library reports trouble by C++ exceptions; here every operation that may
    throw returns a `Result`.  `Cut` is not an exception: it says that the
    observed run stops inside the call (the process was killed, or the run is
    only looked at up to that point), so whatever is proved about a `Cut` call
    holds at every moment of a run. */
module Outcome {

  datatype Error =
    | PortNotOpened     // serial::PortNotOpenedException
    | SerialFault       // serial::SerialException
    | IoFault           // serial::IOException
    | InvalidArgument   // std::invalid_argument
    | OutOfRange        // std::out_of_range
    | RuntimeFault      // std::runtime_error

  datatype Result<+T> = Ok(value: T) | Throw(error: Error) | Cut {
    predicate IsFailure() {
      !Ok?
    }

    function PropagateFailure<U>(): Result<U>
      requires IsFailure()
    {
      if Throw? then Result<U>.Throw(error) else Result<U>.Cut
    }

    function Extract(): T
      requires Ok?
    {
      value
    }
  }

  datatype Option<+T> = None | Some(value: T)

  function Min(a: int, b: int): (m: int)
    ensures m <= a && m <= b && (m == a || m == b)
  {
    if a < b then a else b
  }

  /** Concatenation is associative; the verifier likes to be told. */
  lemma Associate<T>(a: seq<T>, b: seq<T>, c: seq<T>)
    ensures a + (b + c) == a + b + c
  {
  }
}
