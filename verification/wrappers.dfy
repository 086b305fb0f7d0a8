/** Failure-carrying results shared by every module: the C++ code reports
    failures by throwing `std::out_of_range` (from `vector::at`/`map::at`)
    or `std::runtime_error` with a fixed message. */
module Wrappers {

  datatype Option<+T> = None | Some(value: T)

  /** The exceptions the modelled code can throw. */
  datatype Error =
    | OutOfRange                     // std::out_of_range from a checked lookup
    | RuntimeError(message: string)  // std::runtime_error(message)

  datatype Result<+T> = Ok(value: T) | Err(error: Error)

  /** A result for operations whose only output is the state change. */
  datatype Outcome = Done | Failed(error: Error)
}
