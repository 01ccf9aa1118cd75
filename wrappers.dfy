/** Option and Result values shared by the scanner's modules, and the errors a
    run can end with. */
module Wrappers {

  datatype Option<+T> = None | Some(value: T)

  /** The ways a run can fail. Each collaborator call that throws in the
      source becomes one of these; DeadlineExceeded stands for the Lambda
      environment ending a scan that keeps requesting pages. */
  datatype Error =
    | ParameterUnavailable(message: string)
    | ListSecretsFailed(message: string)
    | PutObjectFailed(message: string)
    | DeadlineExceeded

  datatype Result<+T> = Success(value: T) | Failure(error: Error)

  /** Outcome of a step that returns nothing on success. */
  datatype Outcome = Pass | Fail(error: Error)
}
