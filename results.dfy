/** Failure-carrying results shared by the readers and graph builders. */
module Results {

  /** A value that may be absent, such as a solver solution. */
  datatype Option<+T> = None | Some(value: T)

  /** The value an operation computes, or the error the original raises instead. */
  datatype Result<+T, +E> = Ok(value: T) | Err(error: E)
}
