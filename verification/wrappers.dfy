/** Failure-compatible result types used for the exceptions the client raises. */
module Wrappers {

  datatype Option<+T> = None | Some(value: T)

  datatype Result<+R, +E> = Ok(value: R) | Err(error: E)

  /** The two exceptions the client can raise while configuring the device. */
  datatype Error =
    | ValueError   // set_rate was given a rate outside the table
    | StructError  // struct.pack('<I', v) was given v outside [0, 2^32)
}
