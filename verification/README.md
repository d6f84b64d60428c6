# Ticket creation handler — a Dafny model

This project models the `open_tms_create_ticket` endpoint of the open_tms backend. One request creates a support ticket, its first revision and that revision's first workflow activity, all inside one database transaction. The handler does this in four stages:

- a health probe answers `{message: 'Health check success'}` before anything else;
- a method gate rejects verbs other than `POST`;
- the required fields `name`, `department` and `ticket_type` are checked for JavaScript falsiness, and each failure becomes a `BAD_REQUEST` error;
- the transaction resolves the caller's organisation, inserts the three rows and commits. Any exception inside it rolls back and becomes a fixed 500 envelope.

The model is functional. A request, the database and a response are immutable values. The handler is a pure function from a request and a store to an outcome: the response, plus the store the request leaves behind.

| file | module | models |
|---|---|---|
| `wrappers.dfy` | `Wrappers` | `Option` (null/undefined) and `Result` (thrown errors) |
| `js_values.dfy` | `JsValues` | JavaScript values, falsiness (`!v`), the optional property read `v?.[key]` |
| `validation.dfy` | `Validation` | `validateField`, `req.body \|\| {}`, the loop over the required fields |
| `ticket_store.dfy` | `TicketStore` | the tables, `findFirst` on memberships, the fallback organisation, the `ticket_raised` lookup |
| `create_ticket.dfy` | `CreateTicket` | the transaction callback, step by step, with its failure points |
| `handler.dfy` | `Handler` | response selection, commit or roll-back, the four envelopes |
| `handler_properties.dfy` | `HandlerProperties` | properties of whole requests |

Inputs that the code gets from outside become parameters:

- the method gate's verdict is `Request.methodAccepted`;
- the primary keys the database assigns to the new rows are a `FreshIds` value;
- the database call that throws, if any, is `fault: Option<Step>`. The steps are the membership lookup, the three inserts, the stage lookup and the commit.

An insert whose key is already taken fails as a unique-constraint violation. A missing `req.user` makes `req.user.id` throw inside the transaction, so the request ends in a 500.

The ticket's `organisation_id` is the `id` of the caller's `org_member_roles` row (`index.js` lines 118–119 and 126), not that row's organisation column. The model follows the code, so `Membership.organisationId` is never read.

## Model

| member | source | states |
|---|---|---|
| `Validation.ValidateField` | open_tms_backend/open_tms_create_ticket/index.js:3-11 | returns an error exactly when the value is falsy; the error has code `BAD_REQUEST` and message `Please provide a valid <fieldName>` |
| `Validation.RequestBody` | open_tms_backend/open_tms_create_ticket/index.js:79 | `req.body \|\| {}` yields a truthy body whose every property read agrees with the original body |
| `Validation.CollectFieldErrors` | open_tms_backend/open_tms_create_ticket/index.js:85-93 | the loop that pushes each failing field's error computes exactly the reference error list for the given fields |
| `Validation.FieldErrorsSplit` | open_tms_backend/open_tms_create_ticket/index.js:88-93 | checking a concatenation of field lists reports the first list's errors, then the second's, so errors follow field order |
| `Validation.FieldErrorsExactlyFalsy` | open_tms_backend/open_tms_create_ticket/index.js:85-93 | an error is in the list iff it is the `BAD_REQUEST` error of a checked field whose value is falsy |
| `Validation.FieldReported` | open_tms_backend/open_tms_create_ticket/index.js:88-92 | a field's error is listed iff that field is checked and its value is falsy; checking does not stop at the first failure |
| `Validation.FieldErrorsEmpty` | open_tms_backend/open_tms_create_ticket/index.js:85-95 | the error list is empty iff every checked field is truthy |
| `Validation.RequiredFieldErrorsInOrder` | open_tms_backend/open_tms_create_ticket/index.js:85-93 | the required-field errors are one entry per falsy field among `name`, `department`, `ticket_type`, in that order |
| `Validation.MissingBodyFailsEveryField` | open_tms_backend/open_tms_create_ticket/index.js:79-93 | a falsy body yields the three errors for `name`, `department`, `ticket_type` |
| `TicketStore.FindFirstMembership` | open_tms_backend/open_tms_create_ticket/index.js:114-121 | returns the first row matching the user filter, or none when no row matches; an undefined user matches every row |
| `TicketStore.ResolveOrganisation` | open_tms_backend/open_tms_create_ticket/index.js:114-126 | the organisation is the fallback literal or the `id` of the first matching membership row |
| `TicketStore.OrganisationOfFirstMatch` | open_tms_backend/open_tms_create_ticket/index.js:114-126 | with a first matching row, the organisation is that row's `id`, or the fallback when the `id` is empty |
| `TicketStore.OrganisationWithoutMatch` | open_tms_backend/open_tms_create_ticket/index.js:126 | with no matching row, the organisation is `090c4951-217d-4513-b016-49ed085d24d1` |
| `CreateTicket.RunCreation` | open_tms_backend/open_tms_create_ticket/index.js:112-151 | the transaction body succeeds iff a user is present, no database call throws and the three keys are free; on success it has added exactly the three creation rows and reports the new ticket and revision ids |
| `CreateTicket.AddedRowsAreNew` | open_tms_backend/open_tms_create_ticket/index.js:123-150 | creation adds exactly one key to each of the ticket, revision and activity tables and leaves every existing row unchanged |
| `CreateTicket.AddedRowsAreLinked` | open_tms_backend/open_tms_create_ticket/index.js:123-150 | the revision points at the new ticket with title `name` and description `description`; the activity points at the new revision and the `ticket_raised` stage if it exists; all three are created by the caller |
| `CreateTicket.AddedRowsKeepConsistency` | open_tms_backend/open_tms_create_ticket/index.js:123-150 | adding the three linked rows keeps referential integrity, and keeps every ticket with a revision and every revision with an activity |
| `Handler.Transact` | open_tms_backend/open_tms_create_ticket/index.js:112-151 | on a throw the store is the pre-state; on success it is the pre-state plus exactly the creation rows |
| `Handler.Handle` | open_tms_backend/open_tms_create_ticket/index.js:68-177 | the health response is given exactly on the health route, with the store untouched; a rejected verb throws with the store untouched; a request with failed validation gets 400 with the full non-empty error list and no change; a validated request whose transaction throws (no user, database fault, taken key) gets the fixed 500 envelope and the pre-state; every 500 is that envelope with the store unchanged (when sending the response does not throw); only a created ticket changes the store |
| `HandlerProperties.HealthProbeIgnoresRequest` | open_tms_backend/open_tms_create_ticket/index.js:72-75 | two requests on the health route get the same 200 `Health check success` outcome, whatever their body, verb, user, keys or database faults |
| `HandlerProperties.BadRequestListsEveryFalsyField` | open_tms_backend/open_tms_create_ticket/index.js:85-103 | past the health probe and method gate, a falsy required field gives 400 `Bad Request` listing one error per falsy field in field order, and leaves the store unchanged |
| `HandlerProperties.CreationSucceedsIff` | open_tms_backend/open_tms_create_ticket/index.js:73-162 | a ticket is created iff the route is not the health probe, the verb is accepted, the three required fields are truthy, a user is present, no database call throws and the new keys are free |
| `HandlerProperties.AllOrNothing` | open_tms_backend/open_tms_create_ticket/index.js:105-177 | every request leaves either the unchanged store or a created ticket with exactly its three rows added |
| `HandlerProperties.CreatedRowsAreLinked` | open_tms_backend/open_tms_create_ticket/index.js:123-162 | on success the response carries the new ticket and revision ids, each table grew by one row, no existing row changed, and the new rows are linked and created by the caller |
| `HandlerProperties.TicketOrganisation` | open_tms_backend/open_tms_create_ticket/index.js:114-128 | the new ticket's organisation is the first matching membership row's `id`, or the fallback when there is no row or its `id` is empty |
| `HandlerProperties.StageIsOptional` | open_tms_backend/open_tms_create_ticket/index.js:141-150 | whether a ticket is created does not depend on the stage table; the activity's stage is the `ticket_raised` id when present and absent otherwise |
| `HandlerProperties.FailedCreationIsInternalError` | open_tms_backend/open_tms_create_ticket/index.js:105-177 | a request past the health probe and method gate with all three required fields truthy, whose transaction throws (no user, a database fault, or a taken key), is answered with the fixed 500 envelope and leaves the store unchanged |
| `HandlerProperties.InternalErrorIsOpaque` | open_tms_backend/open_tms_create_ticket/index.js:105-177 | any two validated requests whose transactions throw, for whatever reason and at whatever step, get the identical `INTERNAL_ERROR` / `Something went wrong.` envelope and leave their stores unchanged (when sending the response does not throw) |
| `HandlerProperties.HandlePreservesConsistency` | open_tms_backend/open_tms_create_ticket/index.js:112-151 | a request keeps a consistent store consistent |
| `HandlerProperties.RepeatedRequestCreatesTwoTickets` | open_tms_backend/open_tms_create_ticket/index.js:105-162 | the same valid request sent twice, with fresh keys the second time, creates two distinct tickets with identical contents |

## Left out

- `shared.getShared()`, `sendResponse` and `console.log` are a global service locator and I/O. The handler returns its response as a value, and the logged error is dropped. A throwing `sendResponse` is not modelled. In the source, if sending the 200 response throws after the transaction has committed, the `catch` at lines 163–177 sends the 500 envelope while the three new rows stay committed. The model's promise that every 500 leaves the store unchanged (`Handler.Handle`, `HandlerProperties.InternalErrorIsOpaque`) holds only when sending succeeds.
- `validateRequestMethod`'s own logic is not visible. It is a boolean verdict on the request; a rejection is an exception escaping the handler, and the model leaves the response it produces upstream unmodelled.
- Prisma's internals, id generation, isolation levels and concurrent requests are left out. Keys are parameters, a failing call is chosen by the `fault` parameter, and the transaction is all-or-nothing by construction.
- The Prisma schema's column types are not part of this model. A truthy non-string `name` is stored as given. The real database may reject it, which the model can only express as a fault at the revision insert.
- JavaScript property reads cover own properties of objects only. Strings' `length` and index properties, and names inherited from `Object.prototype`, are not modelled. They never coincide with the field names the handler reads.
- A `req.user` that is present but has no `id` is not distinguished from a missing user.
- `req.params` is assumed to be present, as the router supplies it.
- The Swagger comment (lines 13–67), HTTP routing and the authentication that supplies `req.user` are left out.
