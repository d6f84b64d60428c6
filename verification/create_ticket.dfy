/** The body of the creation transaction: resolve the organisation, insert the
    ticket, its first revision and that revision's first activity. Each step
    works on the transaction's copy of the store and may throw; a thrown step
    ends the body with the error, and the caller discards the copy. */
module CreateTicket {
  import opened Wrappers
  import opened JsValues
  import opened TicketStore

  /** The database calls of the transaction, in order, and the commit. */
  datatype Step = FindMembership | InsertTicket | InsertRevision | FindStage | InsertActivity | Commit

  /** Why the transaction body threw. */
  datatype TxError =
    | DatabaseError(step: Step)    // the database rejected the call (connectivity, constraint, ...)
    | UserMissing                  // `req.user.id` read with no authenticated user
    | UniqueViolation(step: Step)  // the new row's primary key is already taken

  /** The primary keys the database assigns to the three new rows. */
  datatype FreshIds = FreshIds(ticket: Id, revision: Id, activity: Id)

  /** The committed-to-be store and the ids the response reports. */
  datatype Created = Created(store: Store, ticketId: Id, revisionId: Id)

  /** The store after the transaction has added exactly the three creation rows
      for `user`, and nothing else. */
  ghost predicate AddsCreationRows(pre: Store, post: Store, user: Id, body: JsValue, ids: FreshIds) {
    && ids.ticket !in pre.tickets
    && ids.revision !in pre.revisions
    && ids.activity !in pre.activities
    && post.memberships == pre.memberships
    && post.stages == pre.stages
    && post.tickets == pre.tickets[ids.ticket := Ticket(ResolveOrganisation(pre.memberships, Some(user)), user)]
    && post.revisions == pre.revisions[ids.revision := Revision(ids.ticket, Get(body, "name"), Get(body, "description"), user)]
    && post.activities == pre.activities[ids.activity := Activity(ids.revision, InitialStage(pre.stages), user)]
  }

  /** The three added rows grow each ticket table by exactly one key and
      leave every other row as it was. */
  lemma AddedRowsAreNew(pre: Store, post: Store, user: Id, body: JsValue, ids: FreshIds)
    requires AddsCreationRows(pre, post, user, body, ids)
    ensures post.tickets.Keys == pre.tickets.Keys + {ids.ticket}
    ensures post.revisions.Keys == pre.revisions.Keys + {ids.revision}
    ensures post.activities.Keys == pre.activities.Keys + {ids.activity}
    ensures |post.tickets| == |pre.tickets| + 1
    ensures |post.revisions| == |pre.revisions| + 1
    ensures |post.activities| == |pre.activities| + 1
    ensures forall t :: t in pre.tickets ==> post.tickets[t] == pre.tickets[t]
    ensures forall r :: r in pre.revisions ==> post.revisions[r] == pre.revisions[r]
    ensures forall a :: a in pre.activities ==> post.activities[a] == pre.activities[a]
  {
    InsertFreshKey(pre.tickets, ids.ticket, post.tickets[ids.ticket]);
    InsertFreshKey(pre.revisions, ids.revision, post.revisions[ids.revision]);
    InsertFreshKey(pre.activities, ids.activity, post.activities[ids.activity]);
  }

  /** Inserting under a fresh key adds that key and keeps every other entry. */
  lemma InsertFreshKey<K, V>(m: map<K, V>, k: K, v: V)
    requires k !in m
    ensures m[k := v].Keys == m.Keys + {k}
    ensures |m[k := v]| == |m| + 1
  {
  }

  /** The revision points at the new ticket, the activity at the new revision
      and the `ticket_raised` stage (if any), all created by `user`. */
  lemma AddedRowsAreLinked(pre: Store, post: Store, user: Id, body: JsValue, ids: FreshIds)
    requires AddsCreationRows(pre, post, user, body, ids)
    ensures post.tickets[ids.ticket].createdBy == user
    ensures post.revisions[ids.revision] == Revision(ids.ticket, Get(body, "name"), Get(body, "description"), user)
    ensures post.revisions[ids.revision].ticketId in post.tickets
    ensures post.activities[ids.activity] == Activity(ids.revision, InitialStage(pre.stages), user)
    ensures post.activities[ids.activity].revisionId in post.revisions
  {
  }

  /** Adding the three linked rows to a consistent store keeps it consistent. */
  lemma AddedRowsKeepConsistency(pre: Store, post: Store, user: Id, body: JsValue, ids: FreshIds)
    requires Consistent(pre)
    requires AddsCreationRows(pre, post, user, body, ids)
    ensures Consistent(post)
  {
    forall t | t in post.tickets
      ensures exists r :: r in post.revisions && post.revisions[r].ticketId == t
    {
      if t == ids.ticket {
        assert post.revisions[ids.revision].ticketId == t;
      } else {
        var r :| r in pre.revisions && pre.revisions[r].ticketId == t;
        assert post.revisions[r].ticketId == t;
      }
    }
    forall r | r in post.revisions
      ensures exists a :: a in post.activities && post.activities[a].revisionId == r
    {
      if r == ids.revision {
        assert post.activities[ids.activity].revisionId == r;
      } else {
        var a :| a in pre.activities && pre.activities[a].revisionId == r;
        assert post.activities[a].revisionId == r;
      }
    }
  }

  /** Whether the database call `step` throws. */
  function Fails(fault: Option<Step>, step: Step): bool {
    fault == Some(step)
  }

  /** A fact about `Step`: a fault that names none of its six constructors
      is no fault at all. */
  lemma NoOtherStepFails(fault: Option<Step>)
    ensures && !Fails(fault, FindMembership)
            && !Fails(fault, InsertTicket)
            && !Fails(fault, InsertRevision)
            && !Fails(fault, FindStage)
            && !Fails(fault, InsertActivity)
            && !Fails(fault, Commit)
            ==> fault.None?
  {
    if fault.Some? {
      match fault.value
      case FindMembership =>
      case InsertTicket =>
      case InsertRevision =>
      case FindStage =>
      case InsertActivity =>
      case Commit =>
    }
  }

  function AddTicket(w: Store, id: Id, row: Ticket, fault: Option<Step>): Result<Store, TxError> {
    if Fails(fault, InsertTicket) then Failure(DatabaseError(InsertTicket))
    else if id in w.tickets then Failure(UniqueViolation(InsertTicket))
    else Success(w.(tickets := w.tickets[id := row]))
  }

  function AddRevision(w: Store, id: Id, row: Revision, fault: Option<Step>): Result<Store, TxError> {
    if Fails(fault, InsertRevision) then Failure(DatabaseError(InsertRevision))
    else if id in w.revisions then Failure(UniqueViolation(InsertRevision))
    else Success(w.(revisions := w.revisions[id := row]))
  }

  function AddActivity(w: Store, id: Id, row: Activity, fault: Option<Step>): Result<Store, TxError> {
    if Fails(fault, InsertActivity) then Failure(DatabaseError(InsertActivity))
    else if id in w.activities then Failure(UniqueViolation(InsertActivity))
    else Success(w.(activities := w.activities[id := row]))
  }

  /** The transaction callback, run on the copy `pre` of the store. `user` is
      `req.user?.id`, `body` the request body after `|| {}`, `ids` the keys
      the inserts receive and `fault` the database call that throws, if any.
      The body succeeds exactly when there is a user, no call throws and every
      key is free, and then it has added exactly the three linked rows. */
  function RunCreation(pre: Store, user: Option<Id>, body: JsValue, ids: FreshIds, fault: Option<Step>)
    : (r: Result<Created, TxError>)
    ensures r.Success? <==>
              && user.Some?
              && fault.None?
              && ids.ticket !in pre.tickets
              && ids.revision !in pre.revisions
              && ids.activity !in pre.activities
    ensures r.Success? ==> AddsCreationRows(pre, r.value.store, user.value, body, ids)
    ensures r.Success? ==> r.value.ticketId == ids.ticket && r.value.revisionId == ids.revision
  {
    if Fails(fault, FindMembership) then Failure(DatabaseError(FindMembership))
    else
      var org := ResolveOrganisation(pre.memberships, user);
      if user.None? then Failure(UserMissing)
      else
        var uid := user.value;
        var w1 :- AddTicket(pre, ids.ticket, Ticket(org, uid), fault);
        var w2 :- AddRevision(w1, ids.revision, Revision(ids.ticket, Get(body, "name"), Get(body, "description"), uid), fault);
        if Fails(fault, FindStage) then Failure(DatabaseError(FindStage))
        else
          var stage := InitialStage(w2.stages);
          var w3 :- AddActivity(w2, ids.activity, Activity(ids.revision, stage, uid), fault);
          if Fails(fault, Commit) then Failure(DatabaseError(Commit))
          else
            NoOtherStepFails(fault);
            Success(Created(w3, ids.ticket, ids.revision))
  }
}
