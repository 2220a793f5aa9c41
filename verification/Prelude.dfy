// Datatypes and the clock shared by the models of the service.
module Prelude {

  datatype Option<+T> = None | Some(value: T)

  datatype Result<+T, +E> = Ok(value: T) | Err(error: E)

  // A UTC timestamp in seconds, with its fractional part.
  type Time = real

  // Python's int(timestamp) for the non-negative timestamps the service reads.
  function WholeSeconds(t: Time): int {
    t.Floor
  }
}
