/** Values of the Python runtime that the exporter relies on: the `None`
    value, and the two exceptions its code can raise. A computation that may
    raise returns a `Result`. */
module PyRuntime {

  /** A Python value that may be `None`. */
  datatype Option<T> = None | Some(value: T)

  /** The exceptions the exporter can raise.
      - `IndexError(index, length)`: `xs[index]` on a list of `length` items.
        Python's message says only "list index out of range"; the index and
        the length are recorded to tell the failing reads apart;
      - `ValueError(extra)`: a record handed to the CSV writer carries the
        field names `extra`, which are not in its header. */
  datatype Exception =
    | IndexError(index: nat, length: nat)
    | ValueError(extra: set<string>)

  /** Either the value a Python expression returns or the exception it raises. */
  datatype Result<T> = Ok(value: T) | Err(error: Exception)
}
