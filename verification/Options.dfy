/** The two result shapes used throughout the model. */
module Options {
  datatype Option<+T> = None | Some(value: T)

  datatype Result<+T, +E> = Ok(value: T) | Err(error: E)

  /** How a write ends: it works, it has no effect, or it takes effect although an error is reported, as when the
      acknowledgement is lost. */
  datatype WriteFault = Works | Refused | Unconfirmed
}
