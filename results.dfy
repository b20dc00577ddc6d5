/**
 * Optional values and pass/fail outcomes, used where ScopeKit returns an
 * optional or a `Future` that either finishes or fails.
 */
module Results {

  datatype Option<+T> = None | Some(value: T)

  /** The outcome of an operation that produces no value but may fail with `E`. */
  datatype Outcome<+E> = Pass | Fail(error: E)
}
