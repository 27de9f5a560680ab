/** The crate's error type and result wrapper. */
module Errors {
  import opened Bytes
  import opened WireCodes

  /** `Panic` stands for the places where the program stops the thread instead of returning. */
  datatype Error =
    | InvalidPduType(code: byte)
    | InvalidPdu(message: string)
    | BindRejected(rejectReason: RejectReason)
    | PresentationContextRejected(contextId: u16, result: ResultCode, reason: ContextReason)
    | RpcFault(status: u32)
    | Transport(message: string)
    | Auth(message: string)
    | Ndr(message: string)
    | Panic(message: string)

  datatype Result<+T> = Success(value: T) | Failure(error: Error) {
    predicate IsFailure() {
      Failure?
    }

    function PropagateFailure<U>(): Result<U>
      requires Failure?
    {
      Failure(error)
    }

    function Extract(): T
      requires Success?
    {
      value
    }
  }
}
