/** Python's None and its exceptions, turned into values.
    Every function of the pipeline that can raise returns a Result instead. */
module Results {

  /** Python's `Optional[T]`: either None or a value. */
  datatype Option<+T> = None | Some(value: T)

  /** The exception classes the pipeline tells apart in its `except` clauses. */
  datatype ExcKind =
    | RuntimeError       // RuntimeError and its subclasses
    | ValueError         // ValueError and its subclasses
    | FileNotFoundError  // raised by the executor when the database file is absent
    | SqliteError        // sqlite3.Error and its subclasses
    | OtherError         // any other Exception subclass

  /** A raised exception: its class and `str(e)`. */
  datatype Exc = Exc(kind: ExcKind, msg: string)

  /** A value, or the exception raised instead of returning it. */
  datatype Result<+T> = Ok(value: T) | Err(error: Exc)
}
