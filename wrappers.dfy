/** Option and Outcome values shared by the modules of this model. */
module Wrappers {
  datatype Option<+T> = None | Some(value: T)

  /** The fail-fast internal errors of the code generator and of the static
      constant builder; Outcome carries either success or one of them. */
  datatype Error =
    | RetTwiceInBlock
    | NoExceptionHandler(callee: string)
    | IncorrectSlotType
    | AssertionFailed(what: string)
    | Abort

  datatype Outcome = Pass | Fail(error: Error)

  datatype Result<+T> = Ok(value: T) | Err(error: Error)
}
