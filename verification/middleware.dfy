/** The request-level middleware: the error type and the central error
    formatter, the fallback for unknown routes, schema validation of one
    request property, and the choice of request id. */
module Middleware {
  import opened Base
  import opened Json
  import opened Http
  import opened Schema

  const InternalErrorMessage := "Internal server error"
  const NotFoundMessage := "Not found"
  const ValidationFailed := "Validation failed"
  const ValidationError := "Validation error"
  const DefaultProperty := "body"

  /** What an error can carry as `details`: zod's flattened report, or any
      other JSON value. */
  datatype Details = Flat(report: Flattened) | Info(value: Json)

  predicate DetailsTruthy(d: Option<Details>) {
    d.Some? && (d.value.Flat? || Truthy(d.value.value))
  }

  /** An error as the error formatter receives it. A field that is
      `undefined` on the error object is `None`. */
  datatype Error = Error(
    message: string,
    statusCode: Option<int>,
    publicMessage: Option<string>,
    details: Option<Details>,
    isOperational: bool,
    requestId: Option<string>)

  /** `new AppError(message, statusCode, details)`; an omitted status is
      500 and omitted details are `null`. */
  function NewAppError(message: string, statusCode: Option<int>, details: Option<Details>): (e: Error)
    ensures e.message == message && e.publicMessage == Some(message)
    ensures statusCode.Some? ==> e.statusCode == statusCode
    ensures statusCode.None? ==> e.statusCode == Some(InternalError)
    ensures e.details == details && e.isOperational && e.requestId.None?
  {
    Error(message, Some(statusCode.GetOr(InternalError)), Some(message), details, true, None)
  }

  /** The JSON body of an error answer. */
  datatype Response = Response(status: int, error: string, requestId: Option<string>, details: Option<Details>)

  /** `errorHandler`: the error (with the request id attached when the
      request has one) and the answer sent. */
  function ErrorHandler(err: Error, requestId: Option<string>): (r: (Error, Response))
    ensures err.statusCode.Some? && err.statusCode.value != 0 ==> r.1.status == err.statusCode.value
    ensures err.statusCode.None? || err.statusCode.value == 0 ==> r.1.status == InternalError
    ensures Present(err.publicMessage) ==> r.1.error == err.publicMessage.value
    ensures !Present(err.publicMessage) ==> r.1.error == InternalErrorMessage
    ensures r.1.details.Some? <==> DetailsTruthy(err.details)
    ensures r.1.details.Some? ==> r.1.details == err.details
    ensures r.1.requestId == requestId
    ensures Present(requestId) ==> r.0 == err.(requestId := requestId)
    ensures !Present(requestId) ==> r.0 == err
  {
    var e := if Present(requestId) then err.(requestId := requestId) else err;
    var status := if err.statusCode.Some? && err.statusCode.value != 0 then err.statusCode.value else InternalError;
    var message := if Present(err.publicMessage) then err.publicMessage.value else InternalErrorMessage;
    (e, Response(status, message, requestId, if DetailsTruthy(err.details) then err.details else None))
  }

  /** An `AppError` with a non-zero status and a non-empty message is
      answered with exactly that status and message, and with its details
      when they are truthy. */
  lemma AppErrorAnswer(message: string, status: int, details: Option<Details>, requestId: Option<string>)
    requires status != 0 && message != ""
    ensures var resp := ErrorHandler(NewAppError(message, Some(status), details), requestId).1;
      && resp.status == status && resp.error == message && resp.requestId == requestId
      && (resp.details.Some? <==> DetailsTruthy(details))
      && (resp.details.Some? ==> resp.details == details)
  {
  }

  /** Every answer of the formatter has a non-zero status and a non-empty
      message. */
  lemma ErrorAnswersAreNeverBlank(err: Error, requestId: Option<string>)
    ensures ErrorHandler(err, requestId).1.status != 0
    ensures ErrorHandler(err, requestId).1.error != ""
  {
  }

  /** `notFoundHandler`. */
  function NotFoundHandler(requestId: Option<string>): (r: Response)
    ensures r.status == NotFound && r.error == NotFoundMessage
    ensures r.requestId == requestId && r.details.None?
  {
    Response(NotFound, NotFoundMessage, requestId, None)
  }

  /** `validate(schema, property)` applied to the request's properties: the
      request afterwards and the error passed to `next`, if any. An omitted
      property is `body`. */
  function Validate(f: Formats, schema: Rule, property: Option<string>, req: map<string, Json>)
    : (r: (map<string, Json>, Option<Error>))
    ensures var key := property.GetOr(DefaultProperty);
      var o := Parse(f, schema, Get(req, key));
      && (r.1.Some? <==> o.Reject?)
      && (o.Reject? ==>
            (&& r.0 == req
             && r.1 == Some(Error(ValidationFailed, Some(BadRequest), Some(ValidationError), Some(Flat(o.details)), false, None))))
      && (o.Accept? ==>
            (&& Get(r.0, key) == o.value
             && forall k :: k != key ==> Get(r.0, k) == Get(req, k)))
  {
    var key := property.GetOr(DefaultProperty);
    match Parse(f, schema, Get(req, key))
    case Reject(details) =>
      (req, Some(Error(ValidationFailed, Some(BadRequest), Some(ValidationError), Some(Flat(details)), false, None)))
    case Accept(Some(data)) => (req[key := data], None)
    case Accept(None) => (req - {key}, None)
  }

  /** A validation failure is answered with 400, "Validation error" and the
      flattened report. */
  lemma ValidationFailureAnswer(f: Formats, schema: Rule, property: Option<string>, req: map<string, Json>,
                                requestId: Option<string>)
    requires Validate(f, schema, property, req).1.Some?
    ensures var resp := ErrorHandler(Validate(f, schema, property, req).1.value, requestId).1;
      && resp.status == BadRequest && resp.error == ValidationError
      && resp.details == Some(Flat(Parse(f, schema, Get(req, property.GetOr(DefaultProperty))).details))
  {
  }

  /** Validating a request that already passed validation changes nothing
      and passes again. */
  lemma {:induction false} ValidateIdempotent(f: Formats, schema: Rule, property: Option<string>, req: map<string, Json>)
    requires WellFormed(schema)
    requires Validate(f, schema, property, req).1.None?
    ensures var req2 := Validate(f, schema, property, req).0;
      Validate(f, schema, property, req2) == (req2, None)
  {
    var key := property.GetOr(DefaultProperty);
    var req2 := Validate(f, schema, property, req).0;
    ParseIdempotent(f, schema, Get(req, key));
    assert Get(req2, key) == Parse(f, schema, Get(req, key)).value;
    var again := Parse(f, schema, Get(req2, key));
    assert again.Accept?;
    if again.value.Some? {
      assert req2[key := again.value.value] == req2;
    } else {
      assert req2 - {key} == req2;
    }
  }

  /** The request id chosen by `requestId`, which is both stored on the
      request and sent back in the `X-Request-Id` header. `generated` is the
      UUID generated for requests without a usable id. */
  datatype RequestIds = RequestIds(requestId: string, header: string)

  function ChooseRequestId(incoming: Option<Json>, generated: string): (r: RequestIds)
    ensures r.requestId == r.header
    ensures incoming.Some? && incoming.value.JStr? && !AllSpace(incoming.value.s)
      ==> r.requestId == incoming.value.s
    ensures !(incoming.Some? && incoming.value.JStr? && !AllSpace(incoming.value.s))
      ==> r.requestId == generated
  {
    var id := if incoming.Some? && incoming.value.JStr? && Trim(incoming.value.s) != "" then incoming.value.s else generated;
    TrimEmptyIffBlank(if incoming.Some? && incoming.value.JStr? then incoming.value.s else "");
    RequestIds(id, id)
  }
}
