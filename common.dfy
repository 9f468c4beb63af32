/** Small wrappers shared by every module of the model. */
module Common {

  /** A value that may be absent: Python's `None` where the source returns it. */
  datatype Option<+T> = None | Some(value: T)

  /** The outcome of Python code that either returns a value or raises an exception
      that nothing in the modelled code catches (an engine fault). */
  datatype Result<+T> = Ok(value: T) | Fault
}
