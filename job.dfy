// One run of the daily user clean-up: find the users soft-deleted at least
// 90 days ago and delete them one at a time. A single try/catch wraps the
// whole run, so the first deletion that fails ends the run: the users after
// it stay, the count is not reported, and the error is swallowed.
//
// The clock is the `now` parameter; which deletions fail is the `failing`
// parameter (the causes are not modelled); the order in which the
// query returns the users is not specified, so the loop takes them in any
// order and reports the order it took in `visited`.

module UserDeletionJob {
  import opened IncidentModel

  /** The user columns the job reads. */
  datatype User = User(isDeleted: bool, deletedAt: Option<Timestamp>)

  /** 90 days, in milliseconds. */
  const RetentionMs: nat := 90 * 24 * 60 * 60 * 1000

  /** A user is due when soft-deleted with `deletedAt <= now - 90 days`; a
      null `deletedAt` never satisfies the comparison. */
  predicate DueForDeletion(u: User, now: Timestamp) {
    u.isDeleted && u.deletedAt.Some? && u.deletedAt.value <= now - RetentionMs
  }

  /** `prisma.user.findMany({ where: { isDeleted: true, deletedAt: { lte: cutoff } } })`. */
  function UsersToDelete(users: map<Id, User>, now: Timestamp): (r: set<Id>)
    ensures r <= users.Keys
    ensures forall id :: id in r <==> id in users && DueForDeletion(users[id], now)
  {
    set id | id in users && DueForDeletion(users[id], now)
  }

  ghost predicate Distinct(s: seq<Id>) {
    forall i, j :: 0 <= i < j < |s| ==> s[i] != s[j]
  }

  /** A list without repeats has as many entries as the set of its entries. */
  lemma {:induction false} DistinctCardinality(s: seq<Id>, t: set<Id>)
    requires Distinct(s)
    requires forall x :: x in s <==> x in t
    ensures |s| == |t|
    decreases |s|
  {
    if s != [] {
      var last := s[|s| - 1];
      var init := s[..|s| - 1];
      forall x ensures x in init <==> x in t - {last} {
        if x in init {
          var i :| 0 <= i < |init| && init[i] == x;
          assert s[i] == x && s[|s| - 1] == last;
        }
        if x in t - {last} {
          var i :| 0 <= i < |s| && s[i] == x;
          assert i != |s| - 1;
          assert init[i] == x;
        }
      }
      DistinctCardinality(init, t - {last});
    } else {
      assert forall x :: x !in t;
      assert t == {};
    }
  }

  /** The user table. */
  class UserStore {
    var users: map<Id, User>

    constructor (users: map<Id, User>)
      ensures this.users == users
    {
      this.users := users;
    }
  }

  /** How a run ends: every selected user deleted and the count logged, or the
      first failing deletion caught. */
  datatype RunReport = Completed(deletedCount: nat) | Aborted(failedId: Id)

  method RunCleanup(db: UserStore, now: Timestamp, failing: set<Id>) returns (report: RunReport, visited: seq<Id>)
    modifies db
    ensures Distinct(visited)
    ensures forall id :: id in visited ==> id in UsersToDelete(old(db.users), now)
    ensures report.Completed? <==> UsersToDelete(old(db.users), now) !! failing
    ensures report.Completed? ==>
              && report.deletedCount == |UsersToDelete(old(db.users), now)|
              && report.deletedCount == |visited|
              && (forall id :: id in visited <==> id in UsersToDelete(old(db.users), now))
              && db.users == old(db.users) - UsersToDelete(old(db.users), now)
    ensures report.Aborted? ==>
              && |visited| > 0
              && report.failedId == visited[|visited| - 1]
              && report.failedId in failing
              && (forall j :: 0 <= j < |visited| - 1 ==> visited[j] !in failing)
              && db.users == old(db.users) - (set j | 0 <= j < |visited| - 1 :: visited[j])
    ensures forall id :: id in old(db.users) && !DueForDeletion(old(db.users)[id], now) ==>
              id in db.users && db.users[id] == old(db.users)[id]
    ensures forall id :: id in db.users ==> id in old(db.users) && db.users[id] == old(db.users)[id]
  {
    var usersToDelete := UsersToDelete(db.users, now);
    var remaining := usersToDelete;
    visited := [];
    while remaining != {}
      invariant remaining <= usersToDelete
      invariant forall id :: id in visited <==> id in usersToDelete && id !in remaining
      invariant Distinct(visited)
      invariant forall j :: 0 <= j < |visited| ==> visited[j] !in failing
      invariant db.users == old(db.users) - (usersToDelete - remaining)
      decreases remaining
    {
      var id :| id in remaining;
      ghost var done := visited;
      visited := visited + [id];
      if id in failing {
        assert visited[..|visited| - 1] == done;
        assert (set j | 0 <= j < |visited| - 1 :: visited[j]) == usersToDelete - remaining;
        report := Aborted(id);
        return;
      }
      db.users := db.users - {id};
      remaining := remaining - {id};
    }
    DistinctCardinality(visited, usersToDelete);
    report := Completed(|usersToDelete|);
  }

  /** Two soft-deleted users, one deleted 91 days before the run and one 89
      days before it: the first is deleted, the second is kept. */
  method NinetyDayScenario(now: Timestamp)
    requires now >= 91 * 24 * 60 * 60 * 1000
  {
    var day := 24 * 60 * 60 * 1000;
    var db := new UserStore(map["old" := User(true, Some(now - 91 * day)),
                                "recent" := User(true, Some(now - 89 * day)),
                                "active" := User(false, Some(now - 91 * day))]);
    assert UsersToDelete(db.users, now) == {"old"};
    var report, visited := RunCleanup(db, now, {});
    assert report == Completed(1);
    assert "old" !in db.users && "recent" in db.users && "active" in db.users;
  }
}
