// The incident service over an in-memory incident table.
//
// The table is a map from incident id to row. Creation, status update and
// deletion change the table in place and are methods of IncidentStore; the
// look-up and the three paginated listings only read it and are functions of
// the table.

module IncidentService {
  import opened IncidentModel
  import opened IncidentValidation

  /** The invariant of the incident table: every row is stored under its own
      id and keeps the lifecycle invariant. */
  ghost predicate TableInvariant(table: map<Id, Incident>) {
    forall k | k in table :: table[k].id == k && Lifecycle(table[k])
  }

  // ---------------------------------------------------------------------------
  // Single-record operations

  /** `getIncidentById`: the row, or 404 when the id is absent. */
  function GetIncidentById(table: map<Id, Incident>, id: Id): (r: Result<Incident>)
    ensures r.Ok? <==> id in table
    ensures r.Ok? ==> r.value == table[id]
    ensures r.Err? ==> r.error == NotFound && r.error.statusCode == 404
  {
    if id in table then Ok(table[id]) else Err(NotFound)
  }

  /** The row `createIncident` inserts: always PENDING, reported by
      `reporterId`, a falsy reported user or attachment stored as null. */
  function NewIncident(id: Id, reporterId: Id, data: CreateIncidentData, now: Timestamp): (r: Incident)
    ensures r.id == id && r.reporterId == reporterId && r.createdAt == now
    ensures r.status == Pending
    ensures r.kind == data.kind && r.title == data.title && r.description == data.description
    ensures r.reportedUserId.Some? <==> Truthy(data.reportedUserId)
    ensures r.reportedUserId.Some? ==> r.reportedUserId == data.reportedUserId
    ensures r.attachmentUrl.Some? <==> Truthy(data.attachmentUrl)
    ensures r.attachmentUrl.Some? ==> r.attachmentUrl == data.attachmentUrl
    ensures r.adminNotes.None? && r.resolvedAt.None? && r.closedAt.None?
    ensures Lifecycle(r)
  {
    Incident(
      id := id,
      reporterId := reporterId,
      reportedUserId := OrNull(data.reportedUserId),
      kind := data.kind,
      title := data.title,
      description := data.description,
      attachmentUrl := OrNull(data.attachmentUrl),
      status := Pending,
      adminNotes := None,
      createdAt := now,
      resolvedAt := None,
      closedAt := None)
  }

  /** The row `updateIncidentStatus` writes back over `before`. Any status may
      follow any other; a falsy note keeps the previous notes; `resolvedAt`
      and `closedAt` are stamped with `now` at most once. */
  function StatusUpdated(before: Incident, status: Status, adminNotes: Option<string>, now: Timestamp): (r: Incident)
    ensures r.status == status
    ensures r == before.(status := r.status, adminNotes := r.adminNotes,
                      resolvedAt := r.resolvedAt, closedAt := r.closedAt)
    ensures Truthy(adminNotes) ==> r.adminNotes == adminNotes
    ensures !Truthy(adminNotes) ==> r.adminNotes == before.adminNotes
    ensures before.resolvedAt.Some? ==> r.resolvedAt == before.resolvedAt
    ensures before.resolvedAt.None? ==> r.resolvedAt == (if status == Resolved then Some(now) else None)
    ensures before.closedAt.Some? ==> r.closedAt == before.closedAt
    ensures before.closedAt.None? ==> r.closedAt == (if status == Closed then Some(now) else None)
    ensures Lifecycle(r)
  {
    var notes := if Truthy(adminNotes) then adminNotes else before.adminNotes;
    var r := before.(status := status, adminNotes := notes);
    var r := if status == Resolved && before.resolvedAt.None? then r.(resolvedAt := Some(now)) else r;
    if status == Closed && before.closedAt.None? then r.(closedAt := Some(now)) else r
  }

  /** Resolving an incident twice keeps the first resolution time, whatever
      status and notes came in between. */
  lemma {:induction false} ResolvedAtStampedOnce(x: Incident, between: Status, notes1: Option<string>,
                                                 notes2: Option<string>, notes3: Option<string>,
                                                 t1: Timestamp, t2: Timestamp, t3: Timestamp)
    requires x.resolvedAt.None?
    ensures StatusUpdated(x, Resolved, notes1, t1).resolvedAt == Some(t1)
    ensures StatusUpdated(StatusUpdated(StatusUpdated(x, Resolved, notes1, t1), between, notes2, t2),
                          Resolved, notes3, t3).resolvedAt == Some(t1)
  {
  }

  // ---------------------------------------------------------------------------
  // The table ordered by createdAt, newest first

  /** Newest first: `orderBy: { createdAt: 'desc' }`. */
  ghost predicate NewestFirst(rows: seq<Incident>) {
    forall i, j :: 0 <= i < j < |rows| ==> rows[i].createdAt >= rows[j].createdAt
  }

  /** No row of `rows` was created after `t`. */
  ghost predicate NoNewerThan(t: Timestamp, rows: seq<Incident>) {
    forall y :: y in rows ==> y.createdAt <= t
  }

  lemma {:induction false} NewestFirstCons(x: Incident, rows: seq<Incident>)
    ensures NewestFirst([x] + rows) <==> NoNewerThan(x.createdAt, rows) && NewestFirst(rows)
  {
    var s := [x] + rows;
    if NoNewerThan(x.createdAt, rows) && NewestFirst(rows) {
      forall i, j | 0 <= i < j < |s| ensures s[i].createdAt >= s[j].createdAt {
        assert s[j] == rows[j - 1];
        if i > 0 {
          assert s[i] == rows[i - 1];
        } else {
          assert s[0] == x && s[j] in rows;
        }
      }
    }
    if NewestFirst(s) {
      forall y | y in rows ensures y.createdAt <= x.createdAt {
        var j :| 0 <= j < |rows| && rows[j] == y;
        assert s[0] == x && s[j + 1] == y;
        assert s[0].createdAt >= s[j + 1].createdAt;
      }
      forall i, j | 0 <= i < j < |rows| ensures rows[i].createdAt >= rows[j].createdAt {
        assert s[i + 1] == rows[i] && s[j + 1] == rows[j];
      }
    }
  }

  /** Inserts `x` before the first row that is strictly older. */
  function Insert(x: Incident, rows: seq<Incident>): (r: seq<Incident>)
    ensures |r| == |rows| + 1
    ensures forall y :: y in r <==> y == x || y in rows
  {
    if rows == [] || x.createdAt >= rows[0].createdAt then [x] + rows
    else [rows[0]] + Insert(x, rows[1..])
  }

  lemma {:induction false} InsertNewestFirst(x: Incident, rows: seq<Incident>)
    requires NewestFirst(rows)
    ensures NewestFirst(Insert(x, rows))
    decreases |rows|
  {
    if rows == [] {
      NewestFirstCons(x, rows);
    } else {
      NewestFirstCons(rows[0], rows[1..]);
      assert [rows[0]] + rows[1..] == rows;
      if x.createdAt >= rows[0].createdAt {
        NewestFirstCons(x, rows);
      } else {
        InsertNewestFirst(x, rows[1..]);
        NewestFirstCons(rows[0], Insert(x, rows[1..]));
      }
    }
  }

  /** No row appears twice. */
  ghost predicate NoRepeats(rows: seq<Incident>) {
    forall i, j :: 0 <= i < j < |rows| ==> rows[i] != rows[j]
  }

  lemma {:induction false} NoRepeatsCons(x: Incident, rows: seq<Incident>)
    ensures NoRepeats([x] + rows) <==> x !in rows && NoRepeats(rows)
  {
    var s := [x] + rows;
    if x !in rows && NoRepeats(rows) {
      forall i, j | 0 <= i < j < |s| ensures s[i] != s[j] {
        assert s[j] == rows[j - 1];
        if i > 0 {
          assert s[i] == rows[i - 1];
        } else {
          assert s[0] == x;
        }
      }
    }
    if NoRepeats(s) {
      forall j | 0 <= j < |rows| ensures rows[j] != x {
        assert s[0] == x && s[j + 1] == rows[j];
      }
      forall i, j | 0 <= i < j < |rows| ensures rows[i] != rows[j] {
        assert s[i + 1] == rows[i] && s[j + 1] == rows[j];
      }
    }
  }

  lemma {:induction false} InsertNoRepeats(x: Incident, rows: seq<Incident>)
    requires x !in rows && NoRepeats(rows)
    ensures NoRepeats(Insert(x, rows))
    decreases |rows|
  {
    if rows == [] || x.createdAt >= rows[0].createdAt {
      NoRepeatsCons(x, rows);
    } else {
      NoRepeatsCons(rows[0], rows[1..]);
      assert [rows[0]] + rows[1..] == rows;
      InsertNoRepeats(x, rows[1..]);
      NoRepeatsCons(rows[0], Insert(x, rows[1..]));
    }
  }

  /** Some key of a non-empty table. */
  ghost function SomeKey(table: map<Id, Incident>): (k: Id)
    requires table != map[]
    ensures k in table
  {
    assert table.Keys != {};
    var k :| k in table.Keys; k
  }

  lemma {:induction false} RemoveKey(table: map<Id, Incident>, k: Id)
    requires k in table
    ensures |table - {k}| == |table| - 1
    ensures forall y :: y in table.Values <==> y == table[k] || y in (table - {k}).Values
  {
    assert (table - {k}).Keys == table.Keys - {k};
    forall y | y in table.Values
      ensures y == table[k] || y in (table - {k}).Values
    {
      var k' :| k' in table && table[k'] == y;
      if k' != k {
        assert k' in (table - {k});
      }
    }
  }

  /** Every row of the table, newest first. The model puts rows created at the
      same time in one order, the same for every query; `NewestFirstUnique`
      shows that no other order exists when creation times differ. */
  ghost function SortedRows(table: map<Id, Incident>): (rows: seq<Incident>)
    ensures |rows| == |table|
    ensures forall y :: y in rows <==> y in table.Values
    ensures NewestFirst(rows)
    ensures TableInvariant(table) ==> NoRepeats(rows)
    decreases |table|
  {
    if table == map[] then []
    else
      var k := SomeKey(table);
      RemoveKey(table, k);
      InsertNewestFirst(table[k], SortedRows(table - {k}));
      if TableInvariant(table) then
        RowNotInRest(table, k);
        InsertNoRepeats(table[k], SortedRows(table - {k}));
        Insert(table[k], SortedRows(table - {k}))
      else
        Insert(table[k], SortedRows(table - {k}))
  }

  /** Under the invariant, rows stored under other keys differ from the row
      under `k`, whose id is `k`. */
  lemma RowNotInRest(table: map<Id, Incident>, k: Id)
    requires TableInvariant(table) && k in table
    ensures TableInvariant(table - {k})
    ensures table[k] !in (table - {k}).Values
  {
    forall k' | k' in table - {k} ensures (table - {k})[k'] != table[k] {
      assert table[k'].id == k';
    }
  }

  // ---------------------------------------------------------------------------
  // Filters

  /** The `where` clause of a listing. */
  datatype Where =
    | ReportedBy(userId: Id)                  // getMyIncidents
    | ReportedAgainst(userId: Id)             // getIncidentsAgainstUser
    | StatusAndType(status: Option<Status>, kind: Option<IncidentType>)  // getAllIncidents

  predicate Matches(w: Where, x: Incident) {
    match w
    case ReportedBy(u) => x.reporterId == u
    case ReportedAgainst(u) => x.reportedUserId == Some(u)
    case StatusAndType(s, t) => (s.None? || x.status == s.value) && (t.None? || x.kind == t.value)
  }

  /** The rows that match `w`, in their original order. */
  function Filter(rows: seq<Incident>, w: Where): (r: seq<Incident>)
    ensures |r| <= |rows|
    ensures forall y :: y in r <==> y in rows && Matches(w, y)
  {
    if rows == [] then []
    else if Matches(w, rows[0]) then [rows[0]] + Filter(rows[1..], w)
    else Filter(rows[1..], w)
  }

  lemma {:induction false} FilterNewestFirst(rows: seq<Incident>, w: Where)
    requires NewestFirst(rows)
    ensures NewestFirst(Filter(rows, w))
    decreases |rows|
  {
    if rows != [] {
      NewestFirstCons(rows[0], rows[1..]);
      assert [rows[0]] + rows[1..] == rows;
      FilterNewestFirst(rows[1..], w);
      if Matches(w, rows[0]) {
        NewestFirstCons(rows[0], Filter(rows[1..], w));
      }
    }
  }

  lemma {:induction false} FilterNoRepeats(rows: seq<Incident>, w: Where)
    requires NoRepeats(rows)
    ensures NoRepeats(Filter(rows, w))
    decreases |rows|
  {
    if rows != [] {
      NoRepeatsCons(rows[0], rows[1..]);
      assert [rows[0]] + rows[1..] == rows;
      FilterNoRepeats(rows[1..], w);
      if Matches(w, rows[0]) {
        NoRepeatsCons(rows[0], Filter(rows[1..], w));
      }
    }
  }

  /** The keys of the rows that match `w`. */
  function MatchingKeys(table: map<Id, Incident>, w: Where): (keys: set<Id>)
    ensures forall k :: k in keys <==> k in table && Matches(w, table[k])
  {
    set k | k in table && Matches(w, table[k])
  }

  /** `prisma.incident.count({ where })`: the number of matching rows. */
  function Count(table: map<Id, Incident>, w: Where): nat {
    |MatchingKeys(table, w)|
  }

  lemma {:induction false} FilterInsert(x: Incident, rows: seq<Incident>, w: Where)
    ensures |Filter(Insert(x, rows), w)| == |Filter(rows, w)| + (if Matches(w, x) then 1 else 0)
    decreases |rows|
  {
    if rows == [] || x.createdAt >= rows[0].createdAt {
      assert ([x] + rows)[1..] == rows;
    } else {
      FilterInsert(x, rows[1..], w);
      assert ([rows[0]] + Insert(x, rows[1..]))[1..] == Insert(x, rows[1..]);
    }
  }

  lemma {:induction false} MatchingKeysRemove(table: map<Id, Incident>, k: Id, w: Where)
    requires k in table
    ensures MatchingKeys(table, w) == MatchingKeys(table - {k}, w) + (if Matches(w, table[k]) then {k} else {})
    ensures k !in MatchingKeys(table - {k}, w)
  {
  }

  /** The independent count agrees with the number of rows the query finds. */
  lemma {:induction false} CountIsMatchingLength(table: map<Id, Incident>, w: Where)
    ensures |Filter(SortedRows(table), w)| == Count(table, w)
    decreases |table|
  {
    if table == map[] {
      assert MatchingKeys(table, w) == {};
    } else {
      var k := SomeKey(table);
      var rest := table - {k};
      RemoveKey(table, k);
      assert SortedRows(table) == Insert(table[k], SortedRows(rest));
      CountIsMatchingLength(rest, w);
      FilterInsert(table[k], SortedRows(rest), w);
      MatchingKeysRemove(table, k, w);
    }
  }

  /** The matching rows of the table, newest first. */
  ghost function Matching(table: map<Id, Incident>, w: Where): (rows: seq<Incident>)
    ensures |rows| == Count(table, w)
    ensures forall y :: y in rows <==> y in table.Values && Matches(w, y)
    ensures NewestFirst(rows)
    ensures TableInvariant(table) ==> NoRepeats(rows)
  {
    CountIsMatchingLength(table, w);
    FilterNewestFirst(SortedRows(table), w);
    if TableInvariant(table) then
      FilterNoRepeats(SortedRows(table), w);
      Filter(SortedRows(table), w)
    else
      Filter(SortedRows(table), w)
  }

  /** The matching rows were created at pairwise different times. */
  ghost predicate DistinctTimes(table: map<Id, Incident>, w: Where) {
    forall y, z :: y in table.Values && z in table.Values && Matches(w, y) && Matches(w, z) && y != z ==>
      y.createdAt != z.createdAt
  }

  /** The head of a newest-first list is at least as new as any of its rows. */
  lemma HeadIsNewest(s: seq<Incident>, y: Incident)
    requires NewestFirst(s) && y in s
    ensures s[0].createdAt >= y.createdAt
  {
    var i :| 0 <= i < |s| && s[i] == y;
    if i > 0 {
      assert s[0].createdAt >= s[i].createdAt;
    }
  }

  /** Without repeats, the tail holds every row but the head. */
  lemma TailMembers(s: seq<Incident>, z: Incident)
    requires s != [] && NoRepeats(s)
    ensures z in s[1..] <==> z in s && z != s[0]
  {
    if z in s[1..] {
      var i :| 0 <= i < |s[1..]| && s[1..][i] == z;
      assert s[i + 1] == z && s[0] != s[i + 1];
    }
    if z in s && z != s[0] {
      var i :| 0 <= i < |s| && s[i] == z;
      assert s[1..][i - 1] == z;
    }
  }

  lemma SameRowsBothEmpty(s: seq<Incident>, t: seq<Incident>)
    requires forall y :: y in s <==> y in t
    ensures s == [] <==> t == []
  {
    if s != [] {
      assert s[0] in t;
    }
    if t != [] {
      assert t[0] in s;
    }
  }

  lemma TailKeepsOrder(s: seq<Incident>)
    requires s != []
    ensures NewestFirst(s) ==> NewestFirst(s[1..])
    ensures NoRepeats(s) ==> NoRepeats(s[1..])
  {
    forall i, j | 0 <= i < j < |s[1..]| ensures s[1..][i] == s[i + 1] && s[1..][j] == s[j + 1] {
    }
  }

  /** Pairwise different creation times among the rows of `s`. */
  ghost predicate TimesDistinct(s: seq<Incident>) {
    forall y, z :: y in s && z in s && y != z ==> y.createdAt != z.createdAt
  }

  lemma SameHead(s: seq<Incident>, t: seq<Incident>)
    requires s != [] && t != [] && NewestFirst(s) && NewestFirst(t) && TimesDistinct(s)
    requires forall y :: y in s <==> y in t
    ensures s[0] == t[0]
  {
    HeadIsNewest(s, t[0]);
    HeadIsNewest(t, s[0]);
    assert t[0] in s && s[0] in s;
  }

  lemma SameTails(s: seq<Incident>, t: seq<Incident>)
    requires s != [] && t != [] && s[0] == t[0] && NoRepeats(s) && NoRepeats(t) && TimesDistinct(s)
    requires forall y :: y in s <==> y in t
    ensures forall y :: y in s[1..] <==> y in t[1..]
    ensures TimesDistinct(s[1..])
  {
    forall z ensures z in s[1..] <==> z in t[1..] {
      TailMembers(s, z);
      TailMembers(t, z);
    }
    forall y, z | y in s[1..] && z in s[1..] && y != z ensures y.createdAt != z.createdAt {
      TailMembers(s, y);
      TailMembers(s, z);
    }
  }

  /** Two newest-first lists without repeats that hold the same rows, created
      at pairwise different times, are the same list. */
  lemma {:induction false} NewestFirstUnique(s: seq<Incident>, t: seq<Incident>)
    requires NewestFirst(s) && NewestFirst(t) && NoRepeats(s) && NoRepeats(t)
    requires forall y :: y in s <==> y in t
    requires TimesDistinct(s)
    ensures s == t
    decreases |s|
  {
    SameRowsBothEmpty(s, t);
    if s != [] {
      SameHead(s, t);
      TailKeepsOrder(s);
      TailKeepsOrder(t);
      SameTails(s, t);
      NewestFirstUnique(s[1..], t[1..]);
      assert s == [s[0]] + s[1..] && t == [t[0]] + t[1..];
    }
  }

  /** When the matching rows have pairwise different creation times, any list
      the store may return for `orderBy: { createdAt: 'desc' }` (newest first,
      each matching row once) is the model's `Matching`, so every page query
      sees the same order. */
  lemma MatchingOrderUnique(table: map<Id, Incident>, w: Where, rows: seq<Incident>)
    requires TableInvariant(table) && DistinctTimes(table, w)
    requires NewestFirst(rows) && NoRepeats(rows)
    requires forall y :: y in rows <==> y in table.Values && Matches(w, y)
    ensures rows == Matching(table, w)
  {
    assert TimesDistinct(rows);
    NewestFirstUnique(rows, Matching(table, w));
  }

  // ---------------------------------------------------------------------------
  // Pagination

  datatype Pagination = Pagination(total: nat, page: Pos, limit: Pos, totalPages: nat)

  datatype Listing = Listing(data: seq<Incident>, pagination: Pagination)

  /** `Math.ceil(total / limit)` on integers: the least number of pages of
      `limit` rows that hold `total` rows. */
  function PageCount(total: nat, limit: Pos): (r: nat)
    ensures r * limit >= total
    ensures r > 0 ==> (r - 1) * limit < total
    ensures total == 0 <==> r == 0
  {
    var r := (total + limit - 1) / limit;
    DivBounds(total + limit - 1, limit);
    r
  }

  lemma DivBounds(a: nat, b: Pos)
    ensures (a / b) * b <= a < (a / b) * b + b
  {
  }

  /** `skip: (page - 1) * limit`, `take: limit`. */
  function Window(rows: seq<Incident>, skip: nat, take: nat): (r: seq<Incident>)
    ensures |r| <= take
    ensures |r| == if skip >= |rows| then 0 else if |rows| - skip < take then |rows| - skip else take
    ensures forall i :: 0 <= i < |r| ==> r[i] == rows[skip + i]
    ensures forall y :: y in r ==> y in rows
    ensures NewestFirst(rows) ==> NewestFirst(r)
    ensures NoRepeats(rows) ==> NoRepeats(r)
  {
    if skip >= |rows| then []
    else if |rows| - skip < take then rows[skip..]
    else rows[skip..skip + take]
  }

  function Skip(page: Pos, limit: Pos): nat {
    (page - 1) * limit
  }

  /** The shared contract of the three listings: rows `(page - 1) * limit`
      onward of the matching rows newest first, at most `limit` of them, with
      the total counted over the whole table and the number of pages its
      ceiling over `limit`. */
  ghost function FindPage(table: map<Id, Incident>, w: Where, page: Pos, limit: Pos): (r: Listing)
    ensures |r.data| <= limit
    ensures |r.data| == if Count(table, w) <= Skip(page, limit) then 0
                         else if Count(table, w) - Skip(page, limit) < limit then Count(table, w) - Skip(page, limit)
                         else limit
    ensures forall i :: 0 <= i < |r.data| ==> r.data[i] == Matching(table, w)[Skip(page, limit) + i]
    ensures r.pagination.total == Count(table, w)
    ensures r.pagination.page == page && r.pagination.limit == limit
    ensures r.pagination.totalPages == PageCount(Count(table, w), limit)
    ensures forall y :: y in r.data ==> y in table.Values && Matches(w, y)
    ensures NewestFirst(r.data)
    ensures TableInvariant(table) ==> NoRepeats(r.data)
  {
    var rows := Matching(table, w);
    Listing(Window(rows, Skip(page, limit), limit),
            Pagination(Count(table, w), page, limit, PageCount(Count(table, w), limit)))
  }

  /** Row `i` of the matching rows falls on page `i / limit + 1`, which is no
      later than the last page. */
  lemma PageOfRow(i: nat, limit: Pos, total: nat)
    requires i < total
    ensures i / limit >= 0
    ensures Skip(i / limit + 1, limit) <= i < Skip(i / limit + 1, limit) + limit
    ensures i / limit + 1 <= PageCount(total, limit)
  {
    var page := i / limit + 1;
    DivBounds(i, limit);
    var n := PageCount(total, limit);
    if n < page {
      MulMonotone(n, page - 1, limit);
    }
  }

  lemma MulMonotone(a: nat, b: nat, c: nat)
    requires a <= b
    ensures a * c <= b * c
  {
  }

  /** Every page is a separate query, and the store may order the matches of
      each query any way that is newest first. When the matching rows have
      pairwise different creation times, whatever order `rows` a page query
      gets, every matching row lies in the window of some page numbered 1 to
      `totalPages`, and that page of the listing holds it. */
  lemma {:induction false} EveryMatchOnSomePage(table: map<Id, Incident>, w: Where, limit: Pos,
                                                rows: seq<Incident>, y: Incident)
    requires TableInvariant(table) && DistinctTimes(table, w)
    requires NewestFirst(rows) && NoRepeats(rows)
    requires forall z :: z in rows <==> z in table.Values && Matches(w, z)
    requires y in table.Values && Matches(w, y)
    ensures exists page: Pos :: && page <= PageCount(Count(table, w), limit)
                                && y in Window(rows, Skip(page, limit), limit)
                                && y in FindPage(table, w, page, limit).data
  {
    MatchingOrderUnique(table, w, rows);
    var i :| 0 <= i < |rows| && rows[i] == y;
    RowOnItsPage(rows, i, limit);
    var page: Pos := i / limit + 1;
    assert FindPage(table, w, page, limit).data == Window(rows, Skip(page, limit), limit);
  }

  /** Row `i` of a list is in the window of page `i / limit + 1`. */
  lemma RowOnItsPage(rows: seq<Incident>, i: nat, limit: Pos)
    requires i < |rows|
    ensures i / limit >= 0
    ensures i / limit + 1 <= PageCount(|rows|, limit)
    ensures rows[i] in Window(rows, Skip(i / limit + 1, limit), limit)
  {
    PageOfRow(i, limit, |rows|);
    var skip := Skip(i / limit + 1, limit);
    var r := Window(rows, skip, limit);
    assert r[i - skip] == rows[skip + (i - skip)];
  }

  /** The three listings: filters are exact matches. */
  ghost function GetMyIncidents(table: map<Id, Incident>, userId: Id, page: Pos, limit: Pos): (r: Listing)
    ensures forall y :: y in r.data ==> y in table.Values && y.reporterId == userId
    ensures r.pagination.total == |set k | k in table && table[k].reporterId == userId|
    ensures r == FindPage(table, ReportedBy(userId), page, limit)
  {
    assert MatchingKeys(table, ReportedBy(userId)) == set k | k in table && table[k].reporterId == userId;
    FindPage(table, ReportedBy(userId), page, limit)
  }

  ghost function GetIncidentsAgainstUser(table: map<Id, Incident>, userId: Id, page: Pos, limit: Pos): (r: Listing)
    ensures forall y :: y in r.data ==> y in table.Values && y.reportedUserId == Some(userId)
    ensures r.pagination.total == |set k | k in table && table[k].reportedUserId == Some(userId)|
    ensures r == FindPage(table, ReportedAgainst(userId), page, limit)
  {
    assert MatchingKeys(table, ReportedAgainst(userId)) == set k | k in table && table[k].reportedUserId == Some(userId);
    FindPage(table, ReportedAgainst(userId), page, limit)
  }

  ghost function GetAllIncidents(table: map<Id, Incident>, status: Option<Status>, kind: Option<IncidentType>,
                                 page: Pos, limit: Pos): (r: Listing)
    ensures forall y :: y in r.data ==> y in table.Values
    ensures status.Some? ==> forall y :: y in r.data ==> y.status == status.value
    ensures kind.Some? ==> forall y :: y in r.data ==> y.kind == kind.value
    ensures status.None? && kind.None? ==> r.pagination.total == |table|
    ensures r == FindPage(table, StatusAndType(status, kind), page, limit)
  {
    var w := StatusAndType(status, kind);
    assert status.None? && kind.None? ==> MatchingKeys(table, w) == table.Keys;
    FindPage(table, w, page, limit)
  }

  /** Twenty-five matches at ten per page: three pages, the last holding five. */
  lemma TwentyFiveMatchesAtTenPerPage(table: map<Id, Incident>, w: Where)
    requires Count(table, w) == 25
    ensures FindPage(table, w, 1, 10).pagination.totalPages == 3
    ensures |FindPage(table, w, 1, 10).data| == 10
    ensures |FindPage(table, w, 3, 10).data| == 5
  {
  }

  // ---------------------------------------------------------------------------
  // The table, updated in place

  class IncidentStore {
    var incidents: map<Id, Incident>

    ghost predicate Valid()
      reads this
    {
      TableInvariant(incidents)
    }

    constructor ()
      ensures Valid() && incidents == map[]
    {
      incidents := map[];
    }

    /** `createIncident`. The store chooses the fresh `id`; `now` is the
        creation time. */
    method CreateIncident(reporterId: Id, data: CreateIncidentData, id: Id, now: Timestamp)
      returns (incident: Incident)
      requires Valid()
      requires id !in incidents
      modifies this
      ensures Valid()
      ensures incident == NewIncident(id, reporterId, data, now)
      ensures incidents == old(incidents)[id := incident]
    {
      incident := NewIncident(id, reporterId, data, now);
      incidents := incidents[id := incident];
    }

    /** `updateIncidentStatus`: 404 and no change when the id is absent;
        otherwise only that row changes. */
    method UpdateIncidentStatus(id: Id, status: Status, adminNotes: Option<string>, now: Timestamp)
      returns (r: Result<Incident>)
      requires Valid()
      modifies this
      ensures Valid()
      ensures id !in old(incidents) ==> r == Err(NotFound) && incidents == old(incidents)
      ensures id in old(incidents) ==>
                && r.Ok?
                && r.value == StatusUpdated(old(incidents)[id], status, adminNotes, now)
                && incidents == old(incidents)[id := r.value]
    {
      var found := GetIncidentById(incidents, id);
      if found.Err? {
        return Err(NotFound);
      }
      var incident := found.value;
      var updateData := incident.(status := status,
                                  adminNotes := if Truthy(adminNotes) then adminNotes else incident.adminNotes);
      if status == Resolved && incident.resolvedAt.None? {
        updateData := updateData.(resolvedAt := Some(now));
      }
      if status == Closed && incident.closedAt.None? {
        updateData := updateData.(closedAt := Some(now));
      }
      incidents := incidents[id := updateData];
      r := Ok(updateData);
    }

    /** `deleteIncident`: 404 and no change when the id is absent; otherwise
        exactly that row is removed. */
    method DeleteIncident(id: Id) returns (r: Result<string>)
      requires Valid()
      modifies this
      ensures Valid()
      ensures id !in old(incidents) ==> r == Err(NotFound) && incidents == old(incidents)
      ensures id in old(incidents) ==>
                && r == Ok("Incident deleted successfully")
                && incidents == old(incidents) - {id}
                && GetIncidentById(incidents, id) == Err(NotFound)
    {
      var found := GetIncidentById(incidents, id);
      if found.Err? {
        return Err(NotFound);
      }
      incidents := incidents - {id};
      r := Ok("Incident deleted successfully");
    }
  }
}
