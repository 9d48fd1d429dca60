// The HTTP handlers of the incident module. A handler either answers with a
// status code, a message and a payload (`res.status(code).json(...)`), or
// passes an error on to the central error responder (`next(error)`).
//
// The caller is the `{id, role}` the authentication middleware attaches to the
// request. The admin-only gate of the routes runs before these handlers and is
// not part of the model.

module IncidentController {
  import opened IncidentModel
  import opened IncidentValidation
  import S = IncidentService

  /** The authenticated caller, `req.user`. */
  datatype Caller = Caller(id: Id, role: string)

  datatype Payload =
    | OneIncident(incident: Incident)
    | IncidentPage(data: seq<Incident>, pagination: S.Pagination)
    | NoData

  datatype Outcome =
    | Respond(code: nat, message: string, payload: Payload)
    | Next(error: Error)

  /** The status code the client sees: the handler's own, the `ApiError`'s, or
      400 for a schema failure. */
  function StatusCode(o: Outcome): nat {
    match o
    case Respond(code, _, _) => code
    case Next(ApiError(code, _)) => code
    case Next(ZodError(_)) => 400
  }

  /** A request body or query string: field name to raw JSON value. */
  type Fields = map<string, RawValue>

  function Field(fields: Fields, name: string): RawValue {
    if name in fields then fields[name] else Undefined
  }

  /** The five fields `createIncident` destructures from the body; any other
      field of the body, `reporterId` included, is never read. */
  function CreateInput(body: Fields): CreateIncidentInput {
    CreateIncidentInput(
      Field(body, "type"), Field(body, "title"), Field(body, "description"),
      Field(body, "reportedUserId"), Field(body, "attachmentUrl"))
  }

  /** `createIncident`: validate the body, then create the incident with the
      caller as its reporter and answer 201 with the created row. */
  method CreateIncident(store: S.IncidentStore, caller: Caller, body: Fields, isUrl: string -> bool,
                        id: Id, now: Timestamp) returns (o: Outcome)
    requires store.Valid() && id !in store.incidents
    modifies store
    ensures store.Valid()
    ensures ValidateCreateIncident(CreateInput(body), isUrl).Err? ==>
              && o == Next(ValidateCreateIncident(CreateInput(body), isUrl).error)
              && StatusCode(o) == 400
              && store.incidents == old(store.incidents)
    ensures ValidateCreateIncident(CreateInput(body), isUrl).Ok? ==>
              && o.Respond? && o.code == 201 && o.message == "Incident reported successfully"
              && o.payload.OneIncident?
              && o.payload.incident == S.NewIncident(id, caller.id, ValidateCreateIncident(CreateInput(body), isUrl).value, now)
              && store.incidents == old(store.incidents)[id := o.payload.incident]
    ensures o.Respond? ==> o.payload.incident.reporterId == caller.id && o.payload.incident.status == Pending
  {
    var validated := ValidateCreateIncident(CreateInput(body), isUrl);
    if validated.Err? {
      return Next(validated.error);
    }
    var incident := store.CreateIncident(caller.id, validated.value, id, now);
    o := Respond(201, "Incident reported successfully", OneIncident(incident));
  }

  /** `getIncident`: 404 when the id is absent, whoever asks; otherwise an
      admin, the reporter or the reported user may view it and anyone else is
      refused with 403. */
  function GetIncident(table: map<Id, Incident>, caller: Caller, id: Id): (o: Outcome)
    ensures id !in table ==> o == Next(NotFound) && StatusCode(o) == 404
    ensures id in table && caller.role == "ADMIN" ==>
              o == Respond(200, "Incident retrieved successfully", OneIncident(table[id]))
    ensures id in table && table[id].reporterId == caller.id ==>
              o == Respond(200, "Incident retrieved successfully", OneIncident(table[id]))
    ensures id in table && table[id].reportedUserId == Some(caller.id) ==>
              o == Respond(200, "Incident retrieved successfully", OneIncident(table[id]))
    ensures id in table && caller.role != "ADMIN" && table[id].reporterId != caller.id
            && table[id].reportedUserId != Some(caller.id) ==>
              o == Next(Forbidden) && StatusCode(o) == 403
  {
    match S.GetIncidentById(table, id)
    case Err(e) => Next(e)
    case Ok(incident) =>
      if caller.role != "ADMIN" && incident.reporterId != caller.id && incident.reportedUserId != Some(caller.id)
      then Next(Forbidden)
      else Respond(200, "Incident retrieved successfully", OneIncident(incident))
  }

  /** `getMyIncidents`: the caller's own reports, `page` 1 and `limit` 10
      unless the query gives them. */
  ghost function GetMyIncidents(table: map<Id, Incident>, caller: Caller, query: ListQueryInput): (o: Outcome)
    ensures o.Respond? && o.code == 200 && o.message == "My incidents retrieved successfully"
    ensures o.payload.IncidentPage?
    ensures var page := OrDefault(query.page, DefaultPage);
            var limit := OrDefault(query.limit, DefaultLimit);
            var l := S.GetMyIncidents(table, caller.id, page, limit);
            o.payload == IncidentPage(l.data, l.pagination)
    ensures query.page.None? ==> o.payload.pagination.page == 1
    ensures query.limit.None? ==> o.payload.pagination.limit == 10
    ensures forall y :: y in o.payload.data ==> y.reporterId == caller.id
  {
    var l := S.GetMyIncidents(table, caller.id, OrDefault(query.page, DefaultPage), OrDefault(query.limit, DefaultLimit));
    Respond(200, "My incidents retrieved successfully", IncidentPage(l.data, l.pagination))
  }

  /** `getAllIncidents`: the query is defaulted, validated by the list schema,
      then every incident is listed, filtered by status and type when given. */
  ghost function GetAllIncidents(table: map<Id, Incident>, query: ListQueryInput): (o: Outcome)
    ensures o.Next? <==> !OptionalStatusOk(query.status) || !OptionalTypeOk(query.kind)
    ensures o.Next? ==> o.error.ZodError? && StatusCode(o) == 400
    ensures o.Respond? ==>
              && o.code == 200 && o.message == "All incidents retrieved successfully"
              && o.payload.IncidentPage?
              && o.payload.pagination.page == OrDefault(query.page, DefaultPage)
              && o.payload.pagination.limit == OrDefault(query.limit, DefaultLimit)
              && (query.status.Str? ==> forall y :: y in o.payload.data ==> StatusName(y.status) == query.status.s)
              && (query.kind.Str? ==> forall y :: y in o.payload.data ==> IncidentTypeName(y.kind) == query.kind.s)
              && (query.status.Undefined? && query.kind.Undefined? ==> o.payload.pagination.total == |table|)
    ensures o.Respond? ==>
              var q := ValidateListQuery(ListQueryInput(query.status, query.kind,
                                                        Some(OrDefault(query.page, DefaultPage)),
                                                        Some(OrDefault(query.limit, DefaultLimit)))).value;
              var l := S.GetAllIncidents(table, q.status, q.kind, q.page, q.limit);
              o.payload == IncidentPage(l.data, l.pagination)
  {
    var page := OrDefault(query.page, DefaultPage);
    var limit := OrDefault(query.limit, DefaultLimit);
    match ValidateListQuery(ListQueryInput(query.status, query.kind, Some(page), Some(limit)))
    case Err(e) => Next(e)
    case Ok(q) =>
      var l := S.GetAllIncidents(table, q.status, q.kind, q.page, q.limit);
      Respond(200, "All incidents retrieved successfully", IncidentPage(l.data, l.pagination))
  }

  /** `updateIncidentStatus`: validate the body, then update the row; 400 on
      a bad body and 404 on an absent id, both leaving the table unchanged. */
  method UpdateIncidentStatus(store: S.IncidentStore, id: Id, body: Fields, now: Timestamp) returns (o: Outcome)
    requires store.Valid()
    modifies store
    ensures store.Valid()
    ensures var v := ValidateUpdateStatus(UpdateStatusInput(Field(body, "status"), Field(body, "adminNotes")));
            && (v.Err? ==> o == Next(v.error) && StatusCode(o) == 400 && store.incidents == old(store.incidents))
            && (v.Ok? && id !in old(store.incidents) ==>
                  o == Next(NotFound) && StatusCode(o) == 404 && store.incidents == old(store.incidents))
            && (v.Ok? && id in old(store.incidents) ==>
                  && o.Respond? && o.code == 200 && o.message == "Incident status updated successfully"
                  && o.payload.OneIncident?
                  && o.payload.incident == S.StatusUpdated(old(store.incidents)[id], v.value.status, v.value.adminNotes, now)
                  && store.incidents == old(store.incidents)[id := o.payload.incident])
  {
    var validated := ValidateUpdateStatus(UpdateStatusInput(Field(body, "status"), Field(body, "adminNotes")));
    if validated.Err? {
      return Next(validated.error);
    }
    var updated := store.UpdateIncidentStatus(id, validated.value.status, validated.value.adminNotes, now);
    match updated
    case Err(e) => o := Next(e);
    case Ok(incident) => o := Respond(200, "Incident status updated successfully", OneIncident(incident));
  }

  /** `deleteIncident`: 404 on an absent id; otherwise the row is removed and
      the service's confirmation is the message. */
  method DeleteIncident(store: S.IncidentStore, id: Id) returns (o: Outcome)
    requires store.Valid()
    modifies store
    ensures store.Valid()
    ensures id !in old(store.incidents) ==>
              o == Next(NotFound) && StatusCode(o) == 404 && store.incidents == old(store.incidents)
    ensures id in old(store.incidents) ==>
              o == Respond(200, "Incident deleted successfully", NoData)
              && store.incidents == old(store.incidents) - {id}
  {
    var result := store.DeleteIncident(id);
    match result
    case Err(e) => o := Next(e);
    case Ok(message) => o := Respond(200, message, NoData);
  }

  /** `getIncidentsAgainstUser`: the reports naming `userId` as their subject,
      `page` 1 and `limit` 10 unless the query gives them. */
  ghost function GetIncidentsAgainstUser(table: map<Id, Incident>, userId: Id, query: ListQueryInput): (o: Outcome)
    ensures o.Respond? && o.code == 200 && o.message == "Incidents against user retrieved successfully"
    ensures o.payload.IncidentPage?
    ensures var page := OrDefault(query.page, DefaultPage);
            var limit := OrDefault(query.limit, DefaultLimit);
            var l := S.GetIncidentsAgainstUser(table, userId, page, limit);
            o.payload == IncidentPage(l.data, l.pagination)
    ensures query.page.None? ==> o.payload.pagination.page == 1
    ensures query.limit.None? ==> o.payload.pagination.limit == 10
    ensures forall y :: y in o.payload.data ==> y.reportedUserId == Some(userId)
  {
    var l := S.GetIncidentsAgainstUser(table, userId, OrDefault(query.page, DefaultPage), OrDefault(query.limit, DefaultLimit));
    Respond(200, "Incidents against user retrieved successfully", IncidentPage(l.data, l.pagination))
  }

  /** The report body of the scenario below passes the create schema. */
  lemma SafetyReportAccepted(isUrl: string -> bool)
    ensures ValidateCreateIncident(CreateIncidentInput(
              Str("SAFETY_ISSUE"), Str("Unsafe driving behavior"),
              Str("Driver was speeding and made sudden turns without signaling"), Undefined, Undefined), isUrl).Ok?
  {
    assert |"Unsafe driving behavior"| == 23;
    assert |"Driver was speeding and made sudden turns without signaling"| == 59;
  }

  /** A safety report filed by "u1", whose body also names another user as
      `reporterId`: the report starts PENDING with "u1" as its reporter. */
  method ReportScenario(isUrl: string -> bool, t0: Timestamp)
  {
    var store := new S.IncidentStore();
    var body := map[
      "type" := Str("SAFETY_ISSUE"),
      "title" := Str("Unsafe driving behavior"),
      "description" := Str("Driver was speeding and made sudden turns without signaling"),
      "reporterId" := Str("someone-else")];
    assert CreateInput(body) == CreateIncidentInput(
      Str("SAFETY_ISSUE"), Str("Unsafe driving behavior"),
      Str("Driver was speeding and made sudden turns without signaling"), Undefined, Undefined);
    SafetyReportAccepted(isUrl);
    var created := CreateIncident(store, Caller("u1", "USER"), body, isUrl, "i1", t0);
    assert created.code == 201;
    assert created.payload.incident.status == Pending && created.payload.incident.reporterId == "u1";
    assert store.incidents == map["i1" := created.payload.incident];
  }

  /** An admin resolves a pending report that was never resolved: the answer
      is 200 and the resolution stamps `resolvedAt`. */
  method ResolveScenario(store: S.IncidentStore, t1: Timestamp)
    requires store.Valid() && "i1" in store.incidents
    requires store.incidents["i1"].status == Pending && store.incidents["i1"].resolvedAt.None?
    modifies store
  {
    var update := map["status" := Str("RESOLVED")];
    assert ValidateUpdateStatus(UpdateStatusInput(Field(update, "status"), Field(update, "adminNotes")))
           == Ok(UpdateStatusData(Resolved, None)) by {
      assert Field(update, "status") == Str("RESOLVED") && Field(update, "adminNotes") == Undefined;
    }
    var resolved := UpdateIncidentStatus(store, "i1", update, t1);
    assert resolved.code == 200;
    assert resolved.payload.incident.status == Resolved && resolved.payload.incident.resolvedAt == Some(t1);
  }
}
