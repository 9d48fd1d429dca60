// The incident record, its enumerations and the errors the incident module
// raises. The persistence store is modelled as a map from id to record (see
// IncidentService); the clock is an injected natural number of milliseconds.

module IncidentModel {

  /** Record identifiers (UUID strings in the store). */
  type Id = string

  /** Milliseconds since the epoch, as `new Date()` and `Date.now()` give them. */
  type Timestamp = nat

  /** Page numbers and page sizes: positive integers. */
  type Pos = n: int | n >= 1 witness 1

  datatype Option<+T> = None | Some(value: T)

  datatype Result<+T> = Ok(value: T) | Err(error: Error)

  /** What a service or controller throws: an `ApiError` with its HTTP status
      code, or the error a schema's `parse` raises, listing every failing field. */
  datatype Error =
    | ApiError(statusCode: nat, message: string)
    | ZodError(issues: seq<string>)

  const NotFound: Error := ApiError(404, "Incident not found")
  const Forbidden: Error := ApiError(403, "You do not have permission to view this incident")

  datatype IncidentType =
    | DriverBehavior | SafetyIssue | VehicleIssue | PassengerBehavior | Harassment | Other

  datatype Status = Pending | Reviewed | Resolved | Closed

  /** An incident row. `kind` is the row's `type` column. */
  datatype Incident = Incident(
    id: Id,
    reporterId: Id,
    reportedUserId: Option<Id>,
    kind: IncidentType,
    title: string,
    description: string,
    attachmentUrl: Option<string>,
    status: Status,
    adminNotes: Option<string>,
    createdAt: Timestamp,
    resolvedAt: Option<Timestamp>,
    closedAt: Option<Timestamp>)

  /** The lifecycle invariant every stored incident keeps: an incident that is
      RESOLVED carries a resolution time, one that is CLOSED a closing time. */
  predicate Lifecycle(x: Incident) {
    && (x.status == Resolved ==> x.resolvedAt.Some?)
    && (x.status == Closed ==> x.closedAt.Some?)
  }

  /** JavaScript truthiness of an optional string: `undefined`, `null` and ""
      are falsy. */
  predicate Truthy(v: Option<string>) {
    v.Some? && v.value != ""
  }

  /** `v || null` on an optional string. */
  function OrNull(v: Option<string>): (r: Option<string>)
    ensures r.Some? <==> Truthy(v)
    ensures r.Some? ==> r == v
  {
    if Truthy(v) then v else None
  }
}
