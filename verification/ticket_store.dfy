/** The database tables the handler reads and writes, as an immutable value,
    with the two lookups it performs: the caller's first membership row and
    the `ticket_raised` stage. */
module TicketStore {
  import opened Wrappers
  import opened JsValues

  type Id = string

  /** A row of `org_member_roles`. */
  datatype Membership = Membership(id: Id, userId: Id, organisationId: Id)

  /** A row of `ticket`. */
  datatype Ticket = Ticket(organisationId: Id, createdBy: Id)

  /** A row of `ticket_revision`: the content snapshot of a ticket. The title
      and description are stored as the request carried them. */
  datatype Revision = Revision(ticketId: Id, title: JsValue, description: JsValue, createdBy: Id)

  /** A row of `ticket_activity`: a revision entering a workflow stage. */
  datatype Activity = Activity(revisionId: Id, currentStage: Option<Id>, createdBy: Id)

  /** The tables: memberships in the order `findFirst` scans them, stage ids
      by their unique name, and the three ticket tables by primary key. */
  datatype Store = Store(
    memberships: seq<Membership>,
    stages: map<string, Id>,
    tickets: map<Id, Ticket>,
    revisions: map<Id, Revision>,
    activities: map<Id, Activity>)

  /** The organisation a ticket is filed under when the caller has none. */
  const FallbackOrganisation: Id := "090c4951-217d-4513-b016-49ed085d24d1"

  /** The stage every new ticket's first activity points at. */
  const InitialStageName: string := "ticket_raised"

  /** The filter `where: { user_id: user }`. An undefined user drops the
      condition, so every row matches. */
  predicate MatchesUser(m: Membership, user: Option<Id>) {
    user.None? || m.userId == user.value
  }

  /** `k` is the position of the first row the filter accepts. */
  ghost predicate IsFirstMatch(ms: seq<Membership>, user: Option<Id>, k: int) {
    && 0 <= k < |ms|
    && MatchesUser(ms[k], user)
    && forall j :: 0 <= j < k ==> !MatchesUser(ms[j], user)
  }

  /** `findFirst`: the position of the first matching row, if any. */
  function FindFirstMembership(ms: seq<Membership>, user: Option<Id>): (r: Option<nat>)
    ensures r.Some? ==> IsFirstMatch(ms, user, r.value)
    ensures r.None? ==> forall j :: 0 <= j < |ms| ==> !MatchesUser(ms[j], user)
  {
    if ms == [] then None
    else if MatchesUser(ms[0], user) then Some(0)
    else match FindFirstMembership(ms[1..], user)
      case None => None
      case Some(k) => Some(k + 1)
  }

  /** `org?.id || FallbackOrganisation`: the selected row's `id`, unless no row
      matched or its `id` is the empty string. */
  function ResolveOrganisation(ms: seq<Membership>, user: Option<Id>): (org: Id)
    ensures org == FallbackOrganisation || exists k :: IsFirstMatch(ms, user, k) && ms[k].id == org
  {
    match FindFirstMembership(ms, user)
    case None => FallbackOrganisation
    case Some(k) => if ms[k].id != "" then ms[k].id else FallbackOrganisation
  }

  /** With a matching row, the ticket's organisation is that row's `id`, or the
      fallback when the `id` is empty. */
  lemma OrganisationOfFirstMatch(ms: seq<Membership>, user: Option<Id>, k: int)
    requires IsFirstMatch(ms, user, k)
    ensures ResolveOrganisation(ms, user) == (if ms[k].id != "" then ms[k].id else FallbackOrganisation)
  {
  }

  /** With no matching row, the ticket goes to the fallback organisation. */
  lemma OrganisationWithoutMatch(ms: seq<Membership>, user: Option<Id>)
    requires forall j :: 0 <= j < |ms| ==> !MatchesUser(ms[j], user)
    ensures ResolveOrganisation(ms, user) == FallbackOrganisation
  {
  }

  /** `stage.findUnique({ where: { name: 'ticket_raised' } })?.id`. */
  function InitialStage(stages: map<string, Id>): Option<Id> {
    if InitialStageName in stages then Some(stages[InitialStageName]) else None
  }

  /** Referential integrity and the creation invariant: every revision and
      activity points at an existing row, every ticket has a revision and
      every revision has an activity. */
  ghost predicate Consistent(s: Store) {
    && (forall r :: r in s.revisions ==> s.revisions[r].ticketId in s.tickets)
    && (forall a :: a in s.activities ==> s.activities[a].revisionId in s.revisions)
    && (forall t :: t in s.tickets ==> exists r :: r in s.revisions && s.revisions[r].ticketId == t)
    && (forall r :: r in s.revisions ==> exists a :: a in s.activities && s.activities[a].revisionId == r)
  }
}
