# Incident reporting: a verified model

This project models the incident-reporting module of a ride-hailing backend,
together with its daily user clean-up job, in Dafny. Authenticated users file
incident reports against other users. Administrators list, update and delete
those reports. A scheduled job erases user accounts that were soft-deleted
90 or more days earlier.

The persistence store is replaced by values the model can reason about:

- the incident table is a `map<Id, Incident>` held by the class
  `IncidentService.IncidentStore`;
- the user table is a `map<Id, User>` held by `UserDeletionJob.UserStore`;
- the clock is a `now: Timestamp` parameter, in milliseconds.

Files and modules:

- `model.dfy`, module `IncidentModel`: the incident row, the status and type
  enumerations, and the errors (`ApiError` with its HTTP code, `ZodError` with
  the failing fields). It also holds the lifecycle invariant: a RESOLVED row
  has a `resolvedAt` and a CLOSED row has a `closedAt`.
- `validation.dfy`, module `IncidentValidation`: the three request schemas as
  predicates and normalisers over raw JSON fields. A raw field is absent, null,
  a string or some other JSON value.
- `service.dfy`, module `IncidentService`: look-up, creation, status update,
  deletion and the three paginated listings.
  - Creation, update and deletion are methods of `IncidentStore`. Each is proved
    against a pure function of the old row or table (`NewIncident`,
    `StatusUpdated`, map update and removal), and each preserves the table
    invariant.
  - The listings share one contract, `FindPage`. It keeps the matching rows
    ordered newest first, skips `(page - 1) * limit` rows and takes `limit`.
    `total` is the independent `count` of matching keys, proved equal to the
    number of rows the query finds. `totalPages` is the integer ceiling of
    `total / limit`.
- `controller.dfy`, module `IncidentController`: the seven HTTP handlers. Each
  either responds with a code, a message and a payload, or forwards an error to
  the central error responder.
- `job.dfy`, module `UserDeletionJob`: one run of the clean-up job, as a
  loop that deletes the selected users one at a time and stops at the first
  deletion that fails.

Two behaviours of the code worth noting:

- A failing deletion in the clean-up job ends the whole run, because the only
  `try/catch` wraps the loop (`backend/jobs/userDeletion.job.js:10-29`). The
  users after the failure stay, the count is not logged, and the error is
  swallowed.
- An empty-string `adminNotes` passes the update schema (`max(1000)`). It then
  keeps the previous notes, because the service writes `adminNotes ||
  incident.adminNotes`. An omitted note is not the only way to keep them.

## Model

| member | source | states |
|---|---|---|
| `IncidentValidation.ParseIncidentType` | backend/src/validations/incident.validation.js:4 | the type enumeration accepts exactly the six listed names; an accepted name prints back to itself, and every type's name is accepted as that type |
| `IncidentValidation.ParseStatus` | backend/src/validations/incident.validation.js:12 | the status enumeration accepts exactly PENDING, REVIEWED, RESOLVED, CLOSED, each as its own status |
| `IncidentValidation.ValidateCreateIncident` | backend/src/validations/incident.validation.js:3-9 | accepted iff the type is in the enumeration, the title has 5 to 100 characters, the description 10 to 2000, `reportedUserId` is absent or a string (not null), and `attachmentUrl` is absent, null or a URL. An accepted payload carries those values, the optional ones as given (absent or null becomes none). A rejection lists exactly the failing fields: each failing schema field once, and no other name |
| `IncidentValidation.ValidateUpdateStatus` | backend/src/validations/incident.validation.js:11-14 | accepted iff the status is in its enumeration and `adminNotes` is absent or a string of at most 1000 characters, so the empty string is accepted. A rejection lists exactly the failing fields: each failing schema field once, and no other name |
| `IncidentValidation.ValidateListQuery` | backend/src/validations/incident.validation.js:16-21 | accepted iff `status` and `type` are each absent or in their enumeration; an absent filter stays absent; an absent `page` becomes 1 and an absent `limit` 10; a rejection names each failing filter once and nothing else |
| `IncidentService.GetIncidentById` | backend/src/services/incident.service.js:42-74 | the row under `id` when present, otherwise a 404 "Incident not found" |
| `IncidentService.NewIncident` | backend/src/services/incident.service.js:5-15 | a created row is PENDING, has the given reporter, id and creation time, and copies type, title and description. A falsy reported user or attachment is stored as null. Notes and both timestamps start unset, so the lifecycle invariant holds |
| `IncidentService.StatusUpdated` | backend/src/services/incident.service.js:195-206 | the new status is the requested one whatever the old one was. Only status, notes and the two timestamps can change. A truthy note replaces the notes and a falsy one keeps them. A timestamp already set is never overwritten; an unset one is stamped with `now` exactly when the new status is RESOLVED (resp. CLOSED). The lifecycle invariant is re-established |
| `IncidentService.ResolvedAtStampedOnce` | backend/src/services/incident.service.js:200-202 | resolving, moving to any status, then resolving again keeps the first resolution time |
| `IncidentService.IncidentStore.CreateIncident` | backend/src/services/incident.service.js:5-39 | the table gains exactly the new row `NewIncident(...)` under the fresh id, and the table invariant is kept |
| `IncidentService.IncidentStore.UpdateIncidentStatus` | backend/src/services/incident.service.js:186-234 | an absent id gives 404 and leaves the table unchanged; otherwise only that row changes, to `StatusUpdated(old row, ...)`, which is returned |
| `IncidentService.IncidentStore.DeleteIncident` | backend/src/services/incident.service.js:237-251 | an absent id gives 404 and leaves the table unchanged; otherwise exactly that row is removed, every other row is kept, and a later look-up gives 404 |
| `IncidentService.InsertNewestFirst` | backend/src/services/incident.service.js:103-105 | inserting a row into a list ordered by `createdAt` descending keeps it ordered |
| `IncidentService.SortedRows` | backend/src/services/incident.service.js:103-105 | the whole table as a list ordered by `createdAt` descending, holding exactly the table's rows; under the table invariant no row appears twice, so there is one entry per key |
| `IncidentService.Filter` | backend/src/services/incident.service.js:82-84 | keeps exactly the rows that match the `where` clause |
| `IncidentService.FilterNewestFirst` | backend/src/services/incident.service.js:103-105 | filtering a list ordered newest first keeps it ordered |
| `IncidentService.CountIsMatchingLength` | backend/src/services/incident.service.js:80-114 | the independent `count` equals the number of rows `findMany` finds for the same `where` |
| `IncidentService.Matching` | backend/src/services/incident.service.js:81-108 | the rows `findMany` finds, before the page window: exactly the matching rows, newest first, `count` many, none twice |
| `IncidentService.PageCount` | backend/src/services/incident.service.js:122 | `Math.ceil(total / limit)`: the least page count whose pages hold `total` rows, 0 exactly when `total` is 0 |
| `IncidentService.Window` | backend/src/services/incident.service.js:106-107 | `skip`/`take`: at most `take` rows, the rows from position `skip` on, in order, as many as remain |
| `IncidentService.FindPage` | backend/src/services/incident.service.js:77-124 | the shared listing contract. Item `i` is matching row `(page - 1) * limit + i` in newest-first order. There are at most `limit` items, exactly as many as remain. Every item is a matching row of the table, the items are newest first, and no item appears twice. `total` counts all matches whatever the page, `page` and `limit` are echoed, and `totalPages` is the ceiling of `total / limit` |
| `IncidentService.PageOfRow` | backend/src/services/incident.service.js:78 | matching row `i` falls in the window of page `i / limit + 1`, and that page is no later than `totalPages` |
| `IncidentService.NewestFirstUnique` | backend/src/services/incident.service.js:103-105 | two newest-first lists without repeats holding the same rows, created at pairwise different times, are the same list |
| `IncidentService.MatchingOrderUnique` | backend/src/services/incident.service.js:81-108 | when the matching rows have pairwise different `createdAt`, every list the store may return for the query (newest first, each match once) is the model's order, so separate page queries agree |
| `IncidentService.EveryMatchOnSomePage` | backend/src/services/incident.service.js:77-124 | when the matching rows have pairwise different `createdAt`, then for any newest-first order the store may give a page query, every matching row lies in the `skip`/`take` window of some page between 1 and `totalPages`, and that page of the listing holds it |
| `IncidentService.GetMyIncidents` | backend/src/services/incident.service.js:77-125 | the shared contract with `where reporterId = userId`: every item was reported by the user, and `total` counts the user's reports |
| `IncidentService.GetAllIncidents` | backend/src/services/incident.service.js:128-183 | the shared contract; items have the given status and the given type when each is supplied, and with neither filter `total` is the table size |
| `IncidentService.GetIncidentsAgainstUser` | backend/src/services/incident.service.js:254-304 | the shared contract with `where reportedUserId = userId`: every item names the user as its subject, and `total` counts those reports |
| `IncidentService.TwentyFiveMatchesAtTenPerPage` | backend/src/services/incident.service.js:106-122 | with 25 matches and 10 per page there are 3 pages; page 1 holds 10 rows and page 3 holds 5 |
| `IncidentController.CreateIncident` | backend/src/controllers/incident.controller.js:6-30 | a body the schema rejects is forwarded as a 400 and the table is unchanged. Otherwise the handler responds 201 "Incident reported successfully" with the created row as data, and the table gains that row. Its reporter is the authenticated caller's id, because only the five schema fields are read from the body, and its status is PENDING |
| `IncidentController.GetIncident` | backend/src/controllers/incident.controller.js:33-53 | an absent id gives 404 for every caller, before any permission check. An admin, the reporter and the reported user each get 200 with the row. Any other caller gets 403 |
| `IncidentController.GetMyIncidents` | backend/src/controllers/incident.controller.js:56-72 | responds 200 with the caller's own reports; a missing `page` is 1 and a missing `limit` 10 |
| `IncidentController.GetAllIncidents` | backend/src/controllers/incident.controller.js:75-105 | a status or type outside its enumeration is forwarded as a 400. Otherwise the handler responds 200 with exactly the service's page and pagination for the parsed status and type filters and the defaulted `page` (1) and `limit` (10); items have the given status and type, and with no filters `total` is the table size |
| `IncidentController.UpdateIncidentStatus` | backend/src/controllers/incident.controller.js:108-133 | a rejected body gives 400 and an absent id 404, both leaving the table unchanged; otherwise 200 with the updated row, which is the only row that changed |
| `IncidentController.DeleteIncident` | backend/src/controllers/incident.controller.js:136-149 | an absent id gives 404 and no change; otherwise 200 "Incident deleted successfully" and exactly that row removed |
| `IncidentController.GetIncidentsAgainstUser` | backend/src/controllers/incident.controller.js:152-168 | responds 200 with the reports naming the user as subject; a missing `page` is 1 and a missing `limit` 10 |
| `UserDeletionJob.UsersToDelete` | backend/jobs/userDeletion.job.js:11-18 | the query selects exactly the users that are soft-deleted with `deletedAt <= now - 90 * 24 * 60 * 60 * 1000`; a user not soft-deleted, or soft-deleted later than the cut-off, is never selected |
| `UserDeletionJob.DistinctCardinality` | backend/jobs/userDeletion.job.js:20-26 | a list of the selected users without repeats has as many entries as were selected, so the logged count is the number of deletions done |
| `UserDeletionJob.RunCleanup` | backend/jobs/userDeletion.job.js:7-30 | only selected users are visited, each once. The run completes iff no selected user's deletion fails. A completed run deleted exactly the selected users and reports their number. An aborted run stops at the first failing deletion: only the users visited before it are deleted, and the rest stay. Unselected users are never touched, and no user is added or changed |

## Left out

- HTTP routing, the authentication middleware and the inline admin gates of the
  admin routes. The handlers assume the caller already passed them; no
  handler re-checks the role except `getIncident`.
- The central error responder is not part of this model. `StatusCode` gives an
  `ApiError` its own code and a schema failure 400.
- The joined `reporter` and `reportedUser` summaries in every query's
  `include`. The model returns the incident row alone.
- `IncidentController.CreateIncident`: the row's `reportedUserId` refers to
  a user through the `reportedUser` relation. A store that enforces the foreign
  key rejects an id naming no user, and the handler forwards that error. The
  model has no user table here, so every body the schema accepts gets 201.
- Identifier and creation-time generation by the store. `CreateIncident` takes
  the fresh `id` and `now` as parameters and requires the id to be unused.
- Concurrency: the `Promise.all` pairs and the check-then-update race between
  `findUnique` and `update`/`delete`. Every operation is atomic and
  sequential.
- `IncidentService.SortedRows`: `orderBy: { createdAt: 'desc' }` has no
  tie-break column, and separate page queries need not order rows with equal
  `createdAt` the same way. The model assumes one tie order, the same for
  every page query. Across real pages, rows with equal `createdAt` can
  therefore be skipped or repeated, which the model does not show.
  `EveryMatchOnSomePage` is stated only for matches with pairwise different
  creation times, where `MatchingOrderUnique` shows the order is forced. The
  tie order is not specified, so the listings and the list handlers are
  ghost functions.
- `IncidentValidation.ValidateCreateIncident`: string lengths count Unicode
  characters, not JavaScript's UTF-16 code units. URL syntax is the
  `isUrl` parameter, because zod's URL parser is not part of this model.
- `IncidentValidation.ValidateUpdateStatus`: the `max(1000)` bound on
  `adminNotes` counts Unicode characters, not JavaScript's UTF-16 code units,
  so a note of more than 1000 code units but at most 1000 characters (600
  emoji, say) is accepted here and rejected by the schema.
- `IncidentValidation.ValidateListQuery`: `page` and `limit` are absent or
  positive integers. A non-numeric string (NaN after `Number` or `parseInt`),
  zero and negative values are not modelled, and neither are the handlers' use
  of them.
- `UserDeletionJob.RunCleanup`: why a deletion fails is not modelled. The set
  of ids whose deletion throws is a parameter. A failure of the `findMany`
  query itself is not modelled; it would delete nothing. The query's order is
  unspecified, so the loop may take the selected users in any order and
  reports that order in `visited`.
- Cron scheduling, console logging, the Prisma client, the route table, the
  server start-up and the API documentation are not part of this model.
