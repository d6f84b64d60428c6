/** The request handler: health probe, method gate, field validation, and the
    creation transaction with its commit-or-roll-back, each ending in one of
    the response envelopes. Sending the response is left to the caller: the
    handler's result is the response together with the store it leaves. */
module Handler {
  import opened Wrappers
  import opened JsValues
  import opened Validation
  import opened TicketStore
  import opened CreateTicket

  /** What the handler reads from the request: the `health` route parameter,
      the verdict of the method gate on the request's verb, the parsed body and
      `req.user?.id`. */
  datatype Request = Request(health: JsValue, methodAccepted: bool, body: JsValue, user: Option<Id>)

  datatype Meta = Meta(status: int, message: string)

  /** The JSON bodies the handler sends. */
  datatype Payload =
    | HealthPayload(message: string)
    | ErrorPayload(meta: Meta, errors: seq<ApiError>)
    | CreatedPayload(meta: Meta, id: Id, revisionId: Id)

  datatype Response = Response(status: int, payload: Payload)

  /** How a request ends: a response sent, or an exception escaping the
      handler (the method gate's). Either way, the store it leaves behind. */
  datatype Outcome =
    | Responded(response: Response, store: Store)
    | Thrown(store: Store)

  const HealthRoute: JsValue := Str("health")

  const HealthResponse: Response := Response(200, HealthPayload("Health check success"))

  const InternalErrorMessage: string := "Something went wrong."

  /** The 500 envelope; it carries nothing of the error that caused it. */
  const InternalErrorResponse: Response :=
    Response(500, ErrorPayload(Meta(500, InternalErrorMessage), [ApiError("INTERNAL_ERROR", InternalErrorMessage)]))

  function BadRequestResponse(errors: seq<ApiError>): Response {
    Response(400, ErrorPayload(Meta(400, "Bad Request"), errors))
  }

  function CreatedResponse(ticketId: Id, revisionId: Id): Response {
    Response(200, CreatedPayload(Meta(200, "Ticket created succesfully"), ticketId, revisionId))
  }

  /** The errors the required-field check reports for a request. */
  function RequestErrors(req: Request): seq<ApiError> {
    FieldErrors(RequestBody(req.body), RequiredFields)
  }

  /** `prisma.$transaction`: the store the body built when it returns, the
      store as it was when it throws. */
  function Transact(pre: Store, user: Option<Id>, body: JsValue, ids: FreshIds, fault: Option<Step>)
    : (r: (Store, Option<Created>))
    ensures r.1.None? ==> r.0 == pre
    ensures r.1.Some? ==> user.Some? && r.0 == r.1.value.store && AddsCreationRows(pre, r.0, user.value, body, ids)
  {
    match RunCreation(pre, user, body, ids, fault)
    case Success(created) => (created.store, Some(created))
    case Failure(_) => (pre, None)
  }

  /** The request gets past the health probe, the method gate and validation,
      so the handler runs the creation transaction. */
  predicate ReachesTransaction(req: Request) {
    req.health != HealthRoute && req.methodAccepted && RequestErrors(req) == []
  }

  /** Something inside the transaction throws: `req.user.id` with no user, a
      failing database call, or an insert whose key is taken. */
  predicate TransactionThrows(req: Request, pre: Store, ids: FreshIds, fault: Option<Step>) {
    || req.user.None?
    || fault.Some?
    || ids.ticket in pre.tickets
    || ids.revision in pre.revisions
    || ids.activity in pre.activities
  }

  /** The handler. `ids` are the keys the database would give the new rows and
      `fault` the database call that throws, if one does. */
  function Handle(req: Request, pre: Store, ids: FreshIds, fault: Option<Step>): (o: Outcome)
    ensures req.health == HealthRoute ==> o == Responded(HealthResponse, pre)
    ensures o.Responded? && o.response == HealthResponse ==> req.health == HealthRoute
    ensures req.health != HealthRoute && req.methodAccepted && RequestErrors(req) != [] ==>
              o == Responded(BadRequestResponse(RequestErrors(req)), pre)
    ensures ReachesTransaction(req) && TransactionThrows(req, pre, ids, fault) ==>
              o == Responded(InternalErrorResponse, pre)
    ensures o.Thrown? <==> req.health != HealthRoute && !req.methodAccepted
    ensures o.Thrown? ==> o.store == pre
    ensures o.Responded? ==> o.response.status in {200, 400, 500}
    ensures o.Responded? && o.response.status == 400 ==>
              && o.store == pre
              && RequestErrors(req) != []
              && o.response == BadRequestResponse(RequestErrors(req))
    ensures o.Responded? && o.response.status == 500 ==> o.store == pre && o.response == InternalErrorResponse
    ensures o.store != pre ==> o.Responded? && o.response.payload.CreatedPayload?
  {
    if req.health == HealthRoute then Responded(HealthResponse, pre)
    else if !req.methodAccepted then Thrown(pre)
    else
      var body := RequestBody(req.body);
      var errors := FieldErrors(body, RequiredFields);
      if |errors| > 0 then Responded(BadRequestResponse(errors), pre)
      else
        var (post, created) := Transact(pre, req.user, body, ids, fault);
        match created
        case Some(c) => Responded(CreatedResponse(c.ticketId, c.revisionId), post)
        case None => Responded(InternalErrorResponse, post)
  }
}
