/** Optional values and the exceptions the mixing-rule kernels can raise. */
module Outcomes {

  datatype Option<+T> = None | Some(value: T)

  /** ZeroDivision stands for Python's ZeroDivisionError from `1.0/x` or `a/b`;
      RootNotSpecified for the ValueError raised when neither phase is requested. */
  datatype Error = ZeroDivision | RootNotSpecified

  datatype Result<+T> = Ok(value: T) | Err(error: Error)
}
