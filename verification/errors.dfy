/** HTTP replies and the server's error-to-response mapping. */
module Errors {
  import Models

  const StatusOK := 200
  const StatusCreated := 201
  const StatusNoContent := 204
  const StatusBadRequest := 400
  const StatusNotFound := 404
  const StatusInternalServerError := 500

  /** The JSON a handler writes. */
  datatype Body =
    | ErrorBody(error: string, message: string)
    | DetailsBody(error: string, details: map<string, string>)
    | TaskBody(task: Models.Task)
    | TaskListBody(tasks: set<Models.Task>)
    | NoBody

  datatype Reply = Reply(status: int, body: Body)

  /** A validation failure with per-field details. */
  datatype ValidationError = ValidationError(message: string, details: map<string, string>)

  function NewValidationError(message: string, details: map<string, string>): (e: ValidationError)
    ensures e.message == message && e.details == details
  {
    ValidationError(message, details)
  }

  /** `(*ValidationError).Error()`. */
  function ErrorText(e: ValidationError): (text: string)
    ensures text == e.message
  {
    e.message
  }

  /** Any error `HandleError` may receive: a `*ValidationError`, or another error with its `Error()` text. */
  datatype AnyError = Validation(v: ValidationError) | Other(text: string)

  /** `HandleError`: 400 with message and details for validation errors, 500 for everything else. */
  function HandleError(err: AnyError): (reply: Reply)
    ensures reply.status == StatusBadRequest <==> err.Validation?
    ensures reply.status == StatusInternalServerError <==> err.Other?
    ensures err.Validation? ==> reply.body == DetailsBody(err.v.message, err.v.details)
    ensures err.Other? ==> reply.body == ErrorBody("Internal server error", err.text)
  {
    match err
    case Validation(v) => Reply(StatusBadRequest, DetailsBody(v.message, v.details))
    case Other(text) => Reply(StatusInternalServerError, ErrorBody("Internal server error", text))
  }

  /** A constructed validation error reports its message and details unchanged, as a 400. */
  lemma ValidationErrorRoundTrip(message: string, details: map<string, string>)
    ensures ErrorText(NewValidationError(message, details)) == message
    ensures HandleError(Validation(NewValidationError(message, details))) == Reply(StatusBadRequest, DetailsBody(message, details))
  {
  }
}
