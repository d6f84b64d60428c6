/** Properties of the handler over whole requests: which of the three outcomes
    a request gets, what the store looks like afterwards, and how the new rows
    are linked. */
module HandlerProperties {
  import opened Wrappers
  import opened JsValues
  import opened Validation
  import opened TicketStore
  import opened CreateTicket
  import opened Handler

  /** The request reached the creation step and the ticket was created. */
  predicate CreatedOutcome(o: Outcome) {
    o.Responded? && o.response.payload.CreatedPayload?
  }

  /** A request on the health route gets the same answer whatever its body,
      verb or user, and whatever state the database is in; the store is not
      touched. */
  lemma HealthProbeIgnoresRequest(req1: Request, req2: Request, pre: Store,
                                  ids1: FreshIds, ids2: FreshIds, fault1: Option<Step>, fault2: Option<Step>)
    requires req1.health == HealthRoute && req2.health == HealthRoute
    ensures Handle(req1, pre, ids1, fault1) == Handle(req2, pre, ids2, fault2) == Responded(HealthResponse, pre)
  {
  }

  /** A request past the health probe and the method gate with a falsy
      required field is answered 400, listing one error per falsy field among
      `name`, `department`, `ticket_type` in that order, and changes nothing. */
  lemma BadRequestListsEveryFalsyField(req: Request, pre: Store, ids: FreshIds, fault: Option<Step>)
    requires req.health != HealthRoute && req.methodAccepted
    requires Falsy(Get(req.body, "name")) || Falsy(Get(req.body, "department")) || Falsy(Get(req.body, "ticket_type"))
    ensures Handle(req, pre, ids, fault) == Responded(BadRequestResponse(
                (if Falsy(Get(req.body, "name")) then [BadRequest("name")] else [])
              + (if Falsy(Get(req.body, "department")) then [BadRequest("department")] else [])
              + (if Falsy(Get(req.body, "ticket_type")) then [BadRequest("ticket_type")] else [])), pre)
  {
    var body := RequestBody(req.body);
    RequiredFieldErrorsInOrder(body);
    assert Get(body, "name") == Get(req.body, "name");
    assert Get(body, "department") == Get(req.body, "department");
    assert Get(body, "ticket_type") == Get(req.body, "ticket_type");
  }

  /** A ticket is created exactly when the request passes the health probe,
      the method gate and validation, an authenticated user is present, no
      database call throws and the new keys are free. */
  lemma CreationSucceedsIff(req: Request, pre: Store, ids: FreshIds, fault: Option<Step>)
    ensures CreatedOutcome(Handle(req, pre, ids, fault)) <==>
              && req.health != HealthRoute
              && req.methodAccepted
              && !Falsy(Get(req.body, "name"))
              && !Falsy(Get(req.body, "department"))
              && !Falsy(Get(req.body, "ticket_type"))
              && req.user.Some?
              && fault.None?
              && ids.ticket !in pre.tickets
              && ids.revision !in pre.revisions
              && ids.activity !in pre.activities
  {
    var body := RequestBody(req.body);
    FieldErrorsEmpty(body, RequiredFields);
    assert forall f :: f in RequiredFields <==> f == "name" || f == "department" || f == "ticket_type";
  }

  /** Atomicity: a request either leaves the store exactly as it found it, or
      it created a ticket and added exactly its three rows. */
  lemma AllOrNothing(req: Request, pre: Store, ids: FreshIds, fault: Option<Step>)
    ensures var o := Handle(req, pre, ids, fault);
            || o.store == pre
            || (CreatedOutcome(o) && req.user.Some? && AddsCreationRows(pre, o.store, req.user.value, RequestBody(req.body), ids))
  {
  }

  /** On success the response reports the new ticket and revision ids, one row
      was added to each table and no existing row changed; the revision points
      at the ticket and carries the request's `name` and `description`, the
      activity points at the revision, and all three are created by the caller. */
  lemma CreatedRowsAreLinked(req: Request, pre: Store, ids: FreshIds, fault: Option<Step>)
    requires CreatedOutcome(Handle(req, pre, ids, fault))
    ensures req.user.Some?
    ensures var o := Handle(req, pre, ids, fault);
            var post, user := o.store, req.user.value;
            && o.response == CreatedResponse(ids.ticket, ids.revision)
            && post.memberships == pre.memberships && post.stages == pre.stages
            && post.tickets.Keys == pre.tickets.Keys + {ids.ticket}
            && post.revisions.Keys == pre.revisions.Keys + {ids.revision}
            && post.activities.Keys == pre.activities.Keys + {ids.activity}
            && |post.tickets| == |pre.tickets| + 1
            && |post.revisions| == |pre.revisions| + 1
            && |post.activities| == |pre.activities| + 1
            && (forall t :: t in pre.tickets ==> post.tickets[t] == pre.tickets[t])
            && (forall r :: r in pre.revisions ==> post.revisions[r] == pre.revisions[r])
            && (forall a :: a in pre.activities ==> post.activities[a] == pre.activities[a])
            && post.tickets[ids.ticket].createdBy == user
            && post.revisions[ids.revision] == Revision(ids.ticket, Get(req.body, "name"), Get(req.body, "description"), user)
            && post.activities[ids.activity].revisionId == ids.revision
            && post.activities[ids.activity].createdBy == user
  {
    var o := Handle(req, pre, ids, fault);
    var body := RequestBody(req.body);
    AllOrNothing(req, pre, ids, fault);
    assert o.store != pre;
    AddedRowsAreNew(pre, o.store, req.user.value, body, ids);
    AddedRowsAreLinked(pre, o.store, req.user.value, body, ids);
    assert Get(body, "name") == Get(req.body, "name");
    assert Get(body, "description") == Get(req.body, "description");
  }

  /** The new ticket belongs to the `id` of the caller's first membership row,
      or to the fallback organisation when the caller has no row or that row's
      `id` is empty. */
  lemma TicketOrganisation(req: Request, pre: Store, ids: FreshIds, fault: Option<Step>)
    requires CreatedOutcome(Handle(req, pre, ids, fault))
    ensures req.user.Some?
    ensures var org := Handle(req, pre, ids, fault).store.tickets[ids.ticket].organisationId;
            && ((forall j :: 0 <= j < |pre.memberships| ==> pre.memberships[j].userId != req.user.value)
                  ==> org == FallbackOrganisation)
            && (forall k :: IsFirstMatch(pre.memberships, req.user, k) ==>
                  org == (if pre.memberships[k].id != "" then pre.memberships[k].id else FallbackOrganisation))
  {
    var ms := pre.memberships;
    forall k | IsFirstMatch(ms, req.user, k)
      ensures ResolveOrganisation(ms, req.user) == (if ms[k].id != "" then ms[k].id else FallbackOrganisation)
    {
      OrganisationOfFirstMatch(ms, req.user, k);
    }
    if forall j :: 0 <= j < |ms| ==> ms[j].userId != req.user.value {
      OrganisationWithoutMatch(ms, req.user);
    }
  }

  /** The `ticket_raised` stage is looked up but not required: whether a
      ticket is created does not depend on the stage table, and the new
      activity's stage is that stage's id when it exists and absent otherwise. */
  lemma StageIsOptional(req: Request, pre: Store, stages: map<string, Id>, ids: FreshIds, fault: Option<Step>)
    ensures CreatedOutcome(Handle(req, pre, ids, fault)) <==>
            CreatedOutcome(Handle(req, pre.(stages := stages), ids, fault))
    ensures CreatedOutcome(Handle(req, pre, ids, fault)) ==>
            Handle(req, pre, ids, fault).store.activities[ids.activity].currentStage ==
              (if InitialStageName in pre.stages then Some(pre.stages[InitialStageName]) else None)
  {
    CreationSucceedsIff(req, pre, ids, fault);
    CreationSucceedsIff(req, pre.(stages := stages), ids, fault);
  }

  /** A request that reaches the transaction and has it throw (no user, a
      failing database call, a taken key) is answered with the fixed 500
      envelope and leaves the store as it was. */
  lemma FailedCreationIsInternalError(req: Request, pre: Store, ids: FreshIds, fault: Option<Step>)
    requires req.health != HealthRoute && req.methodAccepted
    requires !Falsy(Get(req.body, "name")) && !Falsy(Get(req.body, "department")) && !Falsy(Get(req.body, "ticket_type"))
    requires req.user.None? || fault.Some? || ids.ticket in pre.tickets || ids.revision in pre.revisions || ids.activity in pre.activities
    ensures Handle(req, pre, ids, fault) == Responded(InternalErrorResponse, pre)
  {
    FieldErrorsEmpty(RequestBody(req.body), RequiredFields);
    assert forall f :: f in RequiredFields <==> f == "name" || f == "department" || f == "ticket_type";
  }

  /** Every failure inside the transaction gets the same 500 envelope: two
      requests whose transactions throw, for whatever reason and at whatever
      step, get identical responses, so the caller learns nothing of which
      step failed or why. */
  lemma InternalErrorIsOpaque(req1: Request, pre1: Store, ids1: FreshIds, fault1: Option<Step>,
                              req2: Request, pre2: Store, ids2: FreshIds, fault2: Option<Step>)
    requires ReachesTransaction(req1) && TransactionThrows(req1, pre1, ids1, fault1)
    requires ReachesTransaction(req2) && TransactionThrows(req2, pre2, ids2, fault2)
    ensures Handle(req1, pre1, ids1, fault1).Responded? && Handle(req2, pre2, ids2, fault2).Responded?
    ensures Handle(req1, pre1, ids1, fault1).response == Handle(req2, pre2, ids2, fault2).response == InternalErrorResponse
    ensures Handle(req1, pre1, ids1, fault1).store == pre1 && Handle(req2, pre2, ids2, fault2).store == pre2
  {
  }

  /** Creation keeps the store consistent: the new revision points at the new
      ticket, the new activity at the new revision, and each new ticket and
      revision has its follower. */
  lemma HandlePreservesConsistency(req: Request, pre: Store, ids: FreshIds, fault: Option<Step>)
    requires Consistent(pre)
    ensures Consistent(Handle(req, pre, ids, fault).store)
  {
    var o := Handle(req, pre, ids, fault);
    AllOrNothing(req, pre, ids, fault);
    if o.store != pre {
      AddedRowsKeepConsistency(pre, o.store, req.user.value, RequestBody(req.body), ids);
    }
  }

  /** Creation is not idempotent: the same valid request sent twice, with the
      database giving fresh keys the second time, files two distinct tickets
      with identical contents. */
  lemma RepeatedRequestCreatesTwoTickets(req: Request, pre: Store, ids1: FreshIds, ids2: FreshIds)
    requires CreatedOutcome(Handle(req, pre, ids1, None))
    requires ids2.ticket != ids1.ticket && ids2.revision != ids1.revision && ids2.activity != ids1.activity
    requires ids2.ticket !in pre.tickets && ids2.revision !in pre.revisions && ids2.activity !in pre.activities
    ensures var mid := Handle(req, pre, ids1, None).store;
            var o := Handle(req, mid, ids2, None);
            && CreatedOutcome(o)
            && ids1.ticket in o.store.tickets && ids2.ticket in o.store.tickets
            && o.store.tickets[ids1.ticket] == o.store.tickets[ids2.ticket]
            && |o.store.tickets| == |pre.tickets| + 2
  {
    var mid := Handle(req, pre, ids1, None).store;
    CreationSucceedsIff(req, pre, ids1, None);
    CreatedRowsAreLinked(req, pre, ids1, None);
    CreationSucceedsIff(req, mid, ids2, None);
    CreatedRowsAreLinked(req, mid, ids2, None);
  }
}
