/** Failure-carrying wrappers shared by the whole model. */
module Base {

  /** A value that may be absent: Python's `None` or a missing key. */
  datatype Option<T> = None | Some(value: T)

  /** The outcome of a Python call that either returns a value or raises. */
  datatype Result<T, E> = Ok(value: T) | Err(error: E)

  /** The Python exceptions the modelled code can raise on malformed input. */
  datatype Failure =
    | IndexError   // indexing an empty list (`lns[0]`, `books[0]`)
    | KeyError     // looking up a serial number that is not on the page
    | ValueError   // `int()` of a non-numeric string; unpacking an empty `zip`
    | TypeError    // concatenating `None` to a string; iterating or indexing `None`
    | AttributeError  // calling `.get` on `None`
    | ZeroDivisionError  // averaging an empty list of gaps
    | OverflowError  // a `date` moved past 0001-01-01 or 9999-12-31

  function Max(a: int, b: int): (m: int)
    ensures m >= a && m >= b
    ensures m == a || m == b
  {
    if a < b then b else a
  }

  function Min(a: int, b: int): (m: int)
    ensures m <= a && m <= b
    ensures m == a || m == b
  {
    if a < b then a else b
  }
}
