/**
 * `FormatResponseInterceptor.intercept`: the handler's outcome wrapped in an
 * envelope. A value is emitted as `{status: true, statusCode, data}`; an error
 * is logged under context `Response` and re-thrown as
 * `{status: false, statusCode, error}`, each field the first truthy of a
 * fallback chain. The response's status code is read, never written.
 */
module ResponseFormat {
  import opened Json
  import opened Logging
  import opened Wrappers

  /** What the formatter reads of a thrown error; `Null` stands for an absent property. */
  datatype HandlerError = HandlerError(status: Val, response: Val, message: Val)

  datatype Envelope<T> =
    | Success(statusCode: Val, data: T)
    | Failure(statusCode: Val, error: Val)
  {
    /** The envelope's `status` field. */
    predicate Status() {
      Success?
    }
  }

  /** The success envelope is emitted downstream; the failure envelope is thrown. */
  datatype Emission<T> = Emitted(envelope: Envelope<T>) | Thrown(envelope: Envelope<T>)

  /**
   * `a || b` on JSON values: one of the two operands, truthy exactly when
   * one of them is, and the left one whenever it is truthy.
   */
  function Or(a: Val, b: Val): (r: Val)
    ensures r == a || r == b
    ensures Truthy(r) <==> Truthy(a) || Truthy(b)
    ensures Truthy(a) ==> r == a
    ensures !Truthy(a) ==> r == b
  {
    if Truthy(a) then a else b
  }

  /** The text the error logger receives for a thrown error: its message when that is a string. */
  function ErrorText(e: HandlerError): string {
    if e.message.Str? then e.message.s else ""
  }

  /** `response.statusCode || error.status || 500`. */
  function FailureStatus(responseStatus: int, e: HandlerError): (code: Val)
    ensures Truthy(code)
    ensures responseStatus != 0 ==> code == Num(responseStatus)
    ensures responseStatus == 0 && Truthy(e.status) ==> code == e.status
    ensures responseStatus == 0 && !Truthy(e.status) ==> code == Num(500)
  {
    Or(Num(responseStatus), Or(e.status, Num(500)))
  }

  /** `error.response || error.message || 'Internal Server Error'`. */
  function FailureError(e: HandlerError): (payload: Val)
    ensures Truthy(payload)
    ensures Truthy(e.response) ==> payload == e.response
    ensures !Truthy(e.response) && Truthy(e.message) ==> payload == e.message
    ensures !Truthy(e.response) && !Truthy(e.message) ==> payload == Str("Internal Server Error")
  {
    Or(e.response, Or(e.message, Str("Internal Server Error")))
  }

  /**
   * One pass through the interceptor: the emission and the log events, given
   * the response's current status code and the handler's outcome.
   */
  function Format<T>(responseStatus: int, outcome: Result<T, HandlerError>): (r: (Emission<T>, seq<LogEvent>))
    ensures outcome.Ok? ==> r.0.Emitted? && r.0.envelope.Status() && r.1 == []
    ensures outcome.Ok? ==> r.0.envelope == Success(Num(responseStatus), outcome.value)
    ensures outcome.Err? ==> r.0.Thrown? && !r.0.envelope.Status()
    ensures outcome.Err? ==> Truthy(r.0.envelope.statusCode) && Truthy(r.0.envelope.error)
    ensures outcome.Err? ==>
      r.0.envelope == Failure(FailureStatus(responseStatus, outcome.error), FailureError(outcome.error))
    ensures outcome.Err? ==> r.1 == [LogEvent(Error, "Response", ErrorText(outcome.error))]
  {
    match outcome
    case Ok(data) => (Emitted(Success(Num(responseStatus), data)), [])
    case Err(e) =>
      var logged := [LogEvent(Error, "Response", ErrorText(e))];
      (Thrown(Failure(FailureStatus(responseStatus, e), FailureError(e))), logged)
  }

  /**
   * An error carrying a structured payload and no status, on a response whose
   * status code is still unset (0), becomes a 500 envelope with that payload.
   * With Express's usual default of 200 the envelope reports 200 instead.
   */
  lemma StructuredErrorExample<T>(payload: map<string, Val>)
    ensures Format<T>(0, Err(HandlerError(Null, Obj(payload), Null))).0
      == Thrown(Failure(Num(500), Obj(payload)))
    ensures Format<T>(200, Err(HandlerError(Null, Obj(payload), Null))).0
      == Thrown(Failure(Num(200), Obj(payload)))
  {
  }
}
