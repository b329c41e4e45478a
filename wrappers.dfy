/** Failure-carrying datatypes used in place of Python's None results and raised exceptions. */
module Wrappers {

  datatype Option<+T> = None | Some(value: T)

  datatype Result<+R, +E> = Success(value: R) | Failure(error: E)

  /** The kinds of Python exception that the modelled code distinguishes in its `except` clauses. */
  datatype ExcKind =
    | ValueError    // includes json.JSONDecodeError, a subclass of ValueError
    | URLError      // urllib.error.URLError and its subclass HTTPError
    | OtherError    // anything else (TypeError, KeyError, AttributeError, ...)

  /** A raised exception: its kind and the text `str(exc)` would give. */
  datatype Raised = Raised(kind: ExcKind, detail: string)
}
