/** Option and Result types used for the error paths of the pipeline. */
module Wrappers {

  datatype Option<+T> = None | Some(value: T)

  /** The exceptions the pipeline raises, by kind. */
  datatype Error =
    | ValueError(reason: string)     // Python ValueError (layer/half sizes, lookups)
    | KeyError(reason: string)       // a dictionary lookup of a missing key
    | IndexError(reason: string)     // a list index out of range
    | RuntimeError(reason: string)   // missing PROPERTIES_BEGIN/END markers
    | Aborted(reason: string)        // an error logged before giving up

  datatype Result<+T> = Ok(value: T) | Err(error: Error)
}
