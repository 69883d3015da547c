/** Optional values and results with an error message, for the lookups and the
    `std::runtime_error` of the data sources. */
module Wrappers {

  datatype Option<+T> = None | Some(value: T)

  /** `Err` carries the message of the exception the source throws. */
  datatype Result<+T> = Ok(value: T) | Err(message: string)
}
