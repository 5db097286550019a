/**
 * The error middleware: how an error that reached it becomes the one
 * response written, and which errors are logged.
 */
module ErrorHandler {
  import opened Common
  import opened Zod

  datatype Body =
    | MessageBody(message: string)
    | ValidationBody(message: string, errors: Flattened)

  datatype Response = Response(status: int, body: Body)

  /** The `status` property of an error: an HTTP error carries one; the
      document store's validation error carries none. */
  function StatusOf(err: Error): Option<int> {
    match err
    case HttpError(status, _) => Some(status)
    case ValidationError(_) => None
    case SchemaError(_) => None
  }

  /** The status of the response to an error that is not a schema error. */
  function EffectiveStatus(err: Error): int {
    var status := StatusOf(err);
    if status.Some? then status.value else 500
  }

  function MessageOf(err: Error): string {
    match err
    case HttpError(_, message) => message
    case ValidationError(_) => "Validation failed"
    case SchemaError(_) => "Validation failed"
  }

  /** The response written for an error. */
  function Respond(err: Error): Response {
    if err.SchemaError? then Response(422, ValidationBody("Validation failed", Flatten(err.issues)))
    else
      var status := EffectiveStatus(err);
      Response(status, MessageBody(if status == 500 then "Internal server error" else MessageOf(err)))
  }

  /** Whether the error is written to the error log. */
  predicate Logged(err: Error) {
    !err.SchemaError? && EffectiveStatus(err) == 500
  }

  /** A schema error becomes 422 "Validation failed" with its flattened issues. */
  lemma SchemaErrorResponse(issues: seq<Issue>)
    ensures Respond(SchemaError(issues)) == Response(422, ValidationBody("Validation failed", Flatten(issues)))
    ensures Respond(SchemaError(issues)).body.errors.formErrors == Messages(Filter(issues, AtForm))
    ensures !Logged(SchemaError(issues))
  {
    FlattenFormErrors(issues);
  }

  /** An error without a status is a 500, and every 500 hides its message
      behind "Internal server error" and is logged. */
  lemma ServerErrorResponse(err: Error)
    requires !err.SchemaError?
    requires StatusOf(err).None? || StatusOf(err) == Some(500)
    ensures Respond(err) == Response(500, MessageBody("Internal server error"))
    ensures Logged(err)
  {
  }

  /** Any other status passes through with its message, and is not logged. */
  lemma ClientErrorResponse(status: int, message: string)
    requires status != 500
    ensures Respond(HttpError(status, message)) == Response(status, MessageBody(message))
    ensures !Logged(HttpError(status, message))
  {
  }

  /** Only responses with status 500 are logged. */
  lemma LoggedIff(err: Error)
    ensures Logged(err) <==> Respond(err).status == 500
  {
  }

  /** What the handler has written and logged so far. */
  class ResponseSink {
    var sent: seq<Response>
    var logged: seq<Error>

    constructor ()
      ensures sent == [] && logged == []
    {
      sent, logged := [], [];
    }
  }

  /** errorHandler: exactly one response per error; a log entry for a 500. */
  method HandleError(err: Error, res: ResponseSink)
    modifies res
    ensures res.sent == old(res.sent) + [Respond(err)]
    ensures res.logged == old(res.logged) + (if Logged(err) then [err] else [])
  {
    if err.SchemaError? {
      res.sent := res.sent + [Response(422, ValidationBody("Validation failed", Flatten(err.issues)))];
      return;
    }
    var status := if StatusOf(err).Some? then StatusOf(err).value else 500;
    var message := if status == 500 then "Internal server error" else MessageOf(err);
    if status == 500 {
      res.logged := res.logged + [err];
    }
    res.sent := res.sent + [Response(status, MessageBody(message))];
  }
}
