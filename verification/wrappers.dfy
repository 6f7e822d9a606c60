/** Option and Result: the typed replacements for the source's `null`
    lookups and its printed error messages. */
module Wrappers {

  /** Either nothing, or a value; used where the source uses `null`. */
  datatype Option<+T> = None | Some(value: T)

  /** Either a value, or one of the failures the source reports. */
  datatype Result<+T, +E> = Ok(value: T) | Err(error: E)
}
