/** Values in place of Python's None and of the exceptions the engine can raise. */
module Faults {

  /** Python's `x or None`. */
  datatype Option<+T> = None | Some(value: T)

  /** The exceptions that can escape the intent engine's own code. */
  datatype Fault =
    | ZeroDivision   // `len(...) / len(set(tokens + pattern_tokens))` with an empty union
    | EmptyChoice    // `random.choice` on an intent without responses

  /** A computation that either returns a value or raises one of the faults above. */
  datatype Result<+T> = Ok(value: T) | Raised(fault: Fault)
}
