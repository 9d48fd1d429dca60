// The three request schemas of the incident module as validity predicates
// and normalisers. A schema either yields the normalised payload or fails
// with a ZodError that names every failing field, in schema order.

module IncidentValidation {
  import opened IncidentModel

  /** A raw JSON field of a request: absent, null, a string, or any other
      JSON value (number, boolean, object, array). */
  datatype RawValue = Undefined | Null | Str(s: string) | NonString

  const IncidentTypeNames: seq<string> :=
    ["DRIVER_BEHAVIOR", "SAFETY_ISSUE", "VEHICLE_ISSUE", "PASSENGER_BEHAVIOR", "HARASSMENT", "OTHER"]

  const StatusNames: seq<string> := ["PENDING", "REVIEWED", "RESOLVED", "CLOSED"]

  function IncidentTypeName(t: IncidentType): string {
    match t
    case DriverBehavior => "DRIVER_BEHAVIOR"
    case SafetyIssue => "SAFETY_ISSUE"
    case VehicleIssue => "VEHICLE_ISSUE"
    case PassengerBehavior => "PASSENGER_BEHAVIOR"
    case Harassment => "HARASSMENT"
    case Other => "OTHER"
  }

  function StatusName(s: Status): string {
    match s
    case Pending => "PENDING"
    case Reviewed => "REVIEWED"
    case Resolved => "RESOLVED"
    case Closed => "CLOSED"
  }

  /** `z.enum([...])` for incident types: accepts exactly the six names. */
  function ParseIncidentType(s: string): (r: Option<IncidentType>)
    ensures r.Some? <==> s in IncidentTypeNames
    ensures r.Some? ==> IncidentTypeName(r.value) == s
    ensures forall t :: IncidentTypeName(t) == s ==> r == Some(t)
  {
    if s == "DRIVER_BEHAVIOR" then Some(DriverBehavior)
    else if s == "SAFETY_ISSUE" then Some(SafetyIssue)
    else if s == "VEHICLE_ISSUE" then Some(VehicleIssue)
    else if s == "PASSENGER_BEHAVIOR" then Some(PassengerBehavior)
    else if s == "HARASSMENT" then Some(Harassment)
    else if s == "OTHER" then Some(Other)
    else None
  }

  /** `z.enum([...])` for statuses: accepts exactly the four names. */
  function ParseStatus(s: string): (r: Option<Status>)
    ensures r.Some? <==> s in StatusNames
    ensures r.Some? ==> StatusName(r.value) == s
    ensures forall t :: StatusName(t) == s ==> r == Some(t)
  {
    if s == "PENDING" then Some(Pending)
    else if s == "REVIEWED" then Some(Reviewed)
    else if s == "RESOLVED" then Some(Resolved)
    else if s == "CLOSED" then Some(Closed)
    else None
  }

  /** Each failing field is reported once. */
  predicate NoRepeats(issues: seq<string>) {
    forall i, j :: 0 <= i < j < |issues| ==> issues[i] != issues[j]
  }

  // ---------------------------------------------------------------------------
  // createIncidentSchema

  /** The fields of the create schema, in schema order. */
  const CreateFields: seq<string> := ["type", "title", "description", "reportedUserId", "attachmentUrl"]

  /** The five fields the controller takes from the request body. */
  datatype CreateIncidentInput = CreateIncidentInput(
    kind: RawValue,
    title: RawValue,
    description: RawValue,
    reportedUserId: RawValue,
    attachmentUrl: RawValue)

  /** The parsed payload. An absent or null optional field becomes None. */
  datatype CreateIncidentData = CreateIncidentData(
    kind: IncidentType,
    title: string,
    description: string,
    reportedUserId: Option<string>,
    attachmentUrl: Option<string>)

  predicate TypeOk(v: RawValue) {
    v.Str? && ParseIncidentType(v.s).Some?
  }

  predicate TitleOk(v: RawValue) {
    v.Str? && 5 <= |v.s| <= 100
  }

  predicate DescriptionOk(v: RawValue) {
    v.Str? && 10 <= |v.s| <= 2000
  }

  /** `z.string().optional()`: absent or a string; null is refused. */
  predicate ReportedUserIdOk(v: RawValue) {
    v.Undefined? || v.Str?
  }

  /** `z.string().url().optional().nullable()`. */
  predicate AttachmentUrlOk(v: RawValue, isUrl: string -> bool) {
    v.Undefined? || v.Null? || (v.Str? && isUrl(v.s))
  }

  function OptionalString(v: RawValue): (r: Option<string>)
    ensures r.Some? <==> v.Str?
    ensures v.Str? ==> r.value == v.s
  {
    if v.Str? then Some(v.s) else None
  }

  /** Whether the create schema accepts the field called `name`. */
  predicate CreateFieldOk(input: CreateIncidentInput, isUrl: string -> bool, name: string) {
    match name
    case "type" => TypeOk(input.kind)
    case "title" => TitleOk(input.title)
    case "description" => DescriptionOk(input.description)
    case "reportedUserId" => ReportedUserIdOk(input.reportedUserId)
    case "attachmentUrl" => AttachmentUrlOk(input.attachmentUrl, isUrl)
    case _ => true
  }

  lemma NoRepeatsCons(x: string, rest: seq<string>)
    ensures NoRepeats([x] + rest) <==> x !in rest && NoRepeats(rest)
  {
    var s := [x] + rest;
    if x !in rest && NoRepeats(rest) {
      forall i, j | 0 <= i < j < |s| ensures s[i] != s[j] {
        assert s[j] == rest[j - 1];
        if i > 0 {
          assert s[i] == rest[i - 1];
        }
      }
    }
    if NoRepeats(s) {
      forall j | 0 <= j < |rest| ensures rest[j] != x {
        assert s[0] == x && s[j + 1] == rest[j];
      }
      forall i, j | 0 <= i < j < |rest| ensures rest[i] != rest[j] {
        assert s[i + 1] == rest[i] && s[j + 1] == rest[j];
      }
    }
  }

  /** The names in `fields` that `ok` refuses, in their order. */
  function FailingFields(fields: seq<string>, ok: string -> bool): (r: seq<string>)
    ensures forall f :: f in r <==> f in fields && !ok(f)
    ensures NoRepeats(fields) ==> NoRepeats(r)
  {
    if fields == [] then []
    else
      var rest := FailingFields(fields[1..], ok);
      NoRepeatsCons(fields[0], fields[1..]);
      NoRepeatsCons(fields[0], rest);
      assert [fields[0]] + fields[1..] == fields;
      if ok(fields[0]) then rest else [fields[0]] + rest
  }

  /** The failing fields of a create request, in schema order. */
  function CreateIssues(input: CreateIncidentInput, isUrl: string -> bool): (issues: seq<string>)
    ensures forall f :: f in issues ==> f in CreateFields
    ensures NoRepeats(issues)
    ensures "type" in issues <==> !TypeOk(input.kind)
    ensures "title" in issues <==> !TitleOk(input.title)
    ensures "description" in issues <==> !DescriptionOk(input.description)
    ensures "reportedUserId" in issues <==> !ReportedUserIdOk(input.reportedUserId)
    ensures "attachmentUrl" in issues <==> !AttachmentUrlOk(input.attachmentUrl, isUrl)
  {
    assert NoRepeats(CreateFields);
    FailingFields(CreateFields, name => CreateFieldOk(input, isUrl, name))
  }

  /** `createIncidentSchema.parse`. */
  function ValidateCreateIncident(input: CreateIncidentInput, isUrl: string -> bool): (r: Result<CreateIncidentData>)
    ensures r.Ok? <==>
              && TypeOk(input.kind) && TitleOk(input.title) && DescriptionOk(input.description)
              && ReportedUserIdOk(input.reportedUserId) && AttachmentUrlOk(input.attachmentUrl, isUrl)
    ensures r.Ok? ==>
              && 5 <= |r.value.title| <= 100
              && 10 <= |r.value.description| <= 2000
              && IncidentTypeName(r.value.kind) == input.kind.s
              && r.value.title == input.title.s
              && r.value.description == input.description.s
              && r.value.reportedUserId == OptionalString(input.reportedUserId)
              && r.value.attachmentUrl == OptionalString(input.attachmentUrl)
              && (r.value.attachmentUrl.Some? ==> isUrl(r.value.attachmentUrl.value))
    ensures r.Err? ==> r.error.ZodError? && r.error.issues != []
    ensures r.Err? ==> ("type" in r.error.issues <==> !TypeOk(input.kind))
    ensures r.Err? ==> ("title" in r.error.issues <==> !TitleOk(input.title))
    ensures r.Err? ==> ("description" in r.error.issues <==> !DescriptionOk(input.description))
    ensures r.Err? ==> ("reportedUserId" in r.error.issues <==> !ReportedUserIdOk(input.reportedUserId))
    ensures r.Err? ==> ("attachmentUrl" in r.error.issues <==> !AttachmentUrlOk(input.attachmentUrl, isUrl))
    ensures r.Err? ==> forall f :: f in r.error.issues ==> f in CreateFields
    ensures r.Err? ==> NoRepeats(r.error.issues)
  {
    var issues := CreateIssues(input, isUrl);
    if issues != [] then Err(ZodError(issues))
    else
      Ok(CreateIncidentData(
           ParseIncidentType(input.kind.s).value,
           input.title.s,
           input.description.s,
           OptionalString(input.reportedUserId),
           OptionalString(input.attachmentUrl)))
  }

  // ---------------------------------------------------------------------------
  // updateIncidentStatusSchema

  /** The fields of the update schema, in schema order. */
  const UpdateFields: seq<string> := ["status", "adminNotes"]

  datatype UpdateStatusInput = UpdateStatusInput(status: RawValue, adminNotes: RawValue)

  datatype UpdateStatusData = UpdateStatusData(status: Status, adminNotes: Option<string>)

  predicate StatusOk(v: RawValue) {
    v.Str? && ParseStatus(v.s).Some?
  }

  /** `z.string().max(1000).optional()`: absent, or a string of at most 1000
      characters (the empty string included); null is refused. */
  predicate AdminNotesOk(v: RawValue) {
    v.Undefined? || (v.Str? && |v.s| <= 1000)
  }

  /** `updateIncidentStatusSchema.parse`. */
  function ValidateUpdateStatus(input: UpdateStatusInput): (r: Result<UpdateStatusData>)
    ensures r.Ok? <==> StatusOk(input.status) && AdminNotesOk(input.adminNotes)
    ensures r.Ok? ==>
              && StatusName(r.value.status) == input.status.s
              && r.value.adminNotes == OptionalString(input.adminNotes)
              && (r.value.adminNotes.Some? ==> |r.value.adminNotes.value| <= 1000)
    ensures r.Err? ==> r.error.ZodError? && r.error.issues != []
    ensures r.Err? ==> ("status" in r.error.issues <==> !StatusOk(input.status))
    ensures r.Err? ==> ("adminNotes" in r.error.issues <==> !AdminNotesOk(input.adminNotes))
    ensures r.Err? ==> forall f :: f in r.error.issues ==> f in UpdateFields
    ensures r.Err? ==> NoRepeats(r.error.issues)
  {
    var issues :=
      (if StatusOk(input.status) then [] else ["status"])
      + (if AdminNotesOk(input.adminNotes) then [] else ["adminNotes"]);
    if issues != [] then Err(ZodError(issues))
    else Ok(UpdateStatusData(ParseStatus(input.status.s).value, OptionalString(input.adminNotes)))
  }

  // ---------------------------------------------------------------------------
  // listIncidentsSchema

  /** A listing query. `page` and `limit` are absent (None) or the decimal
      string of a positive integer. */
  datatype ListQueryInput = ListQueryInput(
    status: RawValue,
    kind: RawValue,
    page: Option<Pos>,
    limit: Option<Pos>)

  datatype ListQuery = ListQuery(
    status: Option<Status>,
    kind: Option<IncidentType>,
    page: Pos,
    limit: Pos)

  const DefaultPage: Pos := 1
  const DefaultLimit: Pos := 10

  /** `.optional().default(d)` followed by `Number`. */
  function OrDefault(v: Option<Pos>, d: Pos): (r: Pos)
    ensures v.None? ==> r == d
    ensures v.Some? ==> r == v.value
  {
    if v.Some? then v.value else d
  }

  /** An optional enumeration: absent, or a string the enumeration accepts. */
  predicate OptionalStatusOk(v: RawValue) {
    v.Undefined? || StatusOk(v)
  }

  predicate OptionalTypeOk(v: RawValue) {
    v.Undefined? || TypeOk(v)
  }

  /** `listIncidentsSchema.parse`. */
  function ValidateListQuery(input: ListQueryInput): (r: Result<ListQuery>)
    ensures r.Ok? <==> OptionalStatusOk(input.status) && OptionalTypeOk(input.kind)
    ensures r.Ok? ==>
              && (r.value.status.Some? <==> input.status.Str?)
              && (r.value.status.Some? ==> StatusName(r.value.status.value) == input.status.s)
              && (r.value.kind.Some? <==> input.kind.Str?)
              && (r.value.kind.Some? ==> IncidentTypeName(r.value.kind.value) == input.kind.s)
              && (input.page.None? ==> r.value.page == 1)
              && (input.limit.None? ==> r.value.limit == 10)
              && (input.page.Some? ==> r.value.page == input.page.value)
              && (input.limit.Some? ==> r.value.limit == input.limit.value)
    ensures r.Err? ==> r.error.ZodError? && r.error.issues != []
    ensures r.Err? ==> ("status" in r.error.issues <==> !OptionalStatusOk(input.status))
    ensures r.Err? ==> ("type" in r.error.issues <==> !OptionalTypeOk(input.kind))
    ensures r.Err? ==> forall f :: f in r.error.issues ==> f in ["status", "type"]
    ensures r.Err? ==> NoRepeats(r.error.issues)
  {
    var issues :=
      (if OptionalStatusOk(input.status) then [] else ["status"])
      + (if OptionalTypeOk(input.kind) then [] else ["type"]);
    if issues != [] then Err(ZodError(issues))
    else
      Ok(ListQuery(
           if input.status.Str? then ParseStatus(input.status.s) else None,
           if input.kind.Str? then ParseIncidentType(input.kind.s) else None,
           OrDefault(input.page, DefaultPage),
           OrDefault(input.limit, DefaultLimit)))
  }
}
