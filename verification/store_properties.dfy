/**
 Properties of the repository's mutation path: the optimistic-concurrency
 check of `Store`, its insert and update branches, soft deletion and the
 read path that hides deleted rows.
 */
module StoreProperties {
  import opened Wrappers
  import opened Errors
  import opened Domain
  import opened Models
  import opened Repository

  /** A stale expected version is rejected before anything is written, whether the row exists or not. */
  lemma StaleVersionRejected(db: Db, t: TimeTracker, version: Uint32, now: Time, faults: Faults)
    requires faults.begin.None? && faults.lock.None?
    requires version != CurrentVersion(db, t.id)
    ensures Store(db, t, version, now, faults).out == Result(Empty, Some(WrongVersion))
    ensures Store(db, t, version, now, faults).db == db
    ensures IsZero(Store(db, t, version, now, faults).out.value)
  {
  }

  /**
   With expected version 0 and no row, `Store` inserts at the next sequence
   value: start, end and name from the record, the default version, not
   deleted, both timestamps `now`. The record's own id and metadata play no part.
   */
  lemma StoreInserts(db: Db, t: TimeTracker, now: Time, faults: Faults)
    requires StoreRuns(faults)
    requires CurrentVersion(db, t.id) == 0 && db.nextId !in db.rows
    ensures var e := Store(db, t, 0, now, faults);
      && e.out.Ok()
      && e.out.value.id == db.nextId
      && e.out.value.start == t.start && e.out.value.end == t.end && e.out.value.name == t.name
      && e.out.value.meta == Meta(false, now, now, DefaultVersion)
      && e.db == Db(db.rows[db.nextId := NewRow(t, now)], db.nextId + 1)
  {
  }

  /** In a valid table the next sequence value is never taken, so an insert cannot hit the unique constraint. */
  lemma ValidInsertIsFresh(db: Db, t: TimeTracker, now: Time, faults: Faults)
    requires Valid(db) && StoreRuns(faults)
    requires CurrentVersion(db, t.id) == 0
    ensures var e := Store(db, t, 0, now, faults);
      && e.out.Ok()
      && e.out.value.id !in db.rows
      && e.out.value.meta.version == 1
      && e.out.value.meta.createdAt == e.out.value.meta.updatedAt
  {
    assert db.nextId !in db.rows;
    StoreInserts(db, t, now, faults);
  }

  /** The insert branch ignores the record's id and metadata. */
  lemma InsertIgnoresIdAndMeta(db: Db, t1: TimeTracker, t2: TimeTracker, now: Time, faults: Faults)
    requires t1.start == t2.start && t1.end == t2.end && t1.name == t2.name
    requires CurrentVersion(db, t1.id) == 0 && CurrentVersion(db, t2.id) == 0
    ensures Store(db, t1, 0, now, faults) == Store(db, t2, 0, now, faults)
  {
    assert NewRow(t1, now) == NewRow(t2, now);
  }

  /** If the sequence value is already used, the insert fails with the unique-violation sentinel and no row changes. */
  lemma TakenSequenceValueViolatesUnique(db: Db, t: TimeTracker, now: Time, faults: Faults)
    requires StoreRuns(faults)
    requires CurrentVersion(db, t.id) == 0 && db.nextId in db.rows
    ensures Store(db, t, 0, now, faults).out.err == Some(UniqueViolation)
    ensures Store(db, t, 0, now, faults).db == db.(nextId := db.nextId + 1)
  {
  }

  /**
   A matching non-zero version updates the row in place: start, end and name
   from the record, version one higher (wrapping as a uint32), updated_at
   `now`; id, created_at and the deleted flag stay, and no other row changes.
   */
  lemma StoreUpdates(db: Db, t: TimeTracker, version: Uint32, now: Time, faults: Faults)
    requires StoreRuns(faults)
    requires version == CurrentVersion(db, t.id) && version != 0
    requires t.meta.version == version
    ensures var e := Store(db, t, version, now, faults);
      && e.out.Ok()
      && e.out.value.id == t.id
      && e.out.value.meta.version == Bump(version)
      && e.db.nextId == db.nextId
      && e.db.rows.Keys == db.rows.Keys
      && e.db.rows[t.id].start == t.start && e.db.rows[t.id].end == t.end && e.db.rows[t.id].name == t.name
      && e.db.rows[t.id].version == Bump(version) && e.db.rows[t.id].updatedAt == now
      && e.db.rows[t.id].createdAt == db.rows[t.id].createdAt
      && e.db.rows[t.id].deleted == db.rows[t.id].deleted
      && (forall k :: k in db.rows && k != t.id ==> e.db.rows[k] == db.rows[k])
  {
  }

  /** Below the uint32 limit the update takes version v to exactly v + 1. */
  lemma UpdateIncrementsByOne(db: Db, t: TimeTracker, version: Uint32, now: Time, faults: Faults)
    requires StoreRuns(faults)
    requires version == CurrentVersion(db, t.id) && 0 < version < MaxUint32
    requires t.meta.version == version
    ensures Store(db, t, version, now, faults).out.value.meta.version == version + 1
  {
    StoreUpdates(db, t, version, now, faults);
  }

  /**
   The conditioned UPDATE matches on the record's metadata version. If that
   differs from the supplied version no row matches: the empty result becomes
   the not-found sentinel and the transaction rolls back.
   */
  lemma ConditionedWriteMisses(db: Db, t: TimeTracker, version: Uint32, now: Time, faults: Faults)
    requires faults.begin.None? && faults.lock.None? && faults.write.None?
    requires version == CurrentVersion(db, t.id) && version != 0
    requires t.meta.version != version
    ensures Store(db, t, version, now, faults).out == Result(Empty, Some(TimeTrackerNotFound))
    ensures Store(db, t, version, now, faults).db == db
  {
  }

  /** The version lookup does not skip soft-deleted rows: `Store` updates them and they stay deleted, hidden from `Get`. */
  lemma StoreUpdatesDeletedRow(db: Db, t: TimeTracker, now: Time, faults: Faults)
    requires StoreRuns(faults)
    requires t.id in db.rows && db.rows[t.id].deleted && db.rows[t.id].version != 0
    requires t.meta.version == db.rows[t.id].version
    ensures var e := Store(db, t, db.rows[t.id].version, now, faults);
      && e.out.Ok()
      && e.db.rows[t.id].deleted
      && Get(e.db, t.id, None).err == Some(TimeTrackerNotFound)
  {
    StoreUpdates(db, t, db.rows[t.id].version, now, faults);
  }

  /** A record `Store` returns is the one `Get` reads back, unless the row is soft-deleted. */
  lemma StoredRecordIsReadBack(db: Db, t: TimeTracker, version: Uint32, now: Time, faults: Faults)
    requires Store(db, t, version, now, faults).out.Ok()
    ensures var e := Store(db, t, version, now, faults);
      !e.out.value.meta.deleted ==> Get(e.db, e.out.value.id, None) == e.out
  {
    var e := Store(db, t, version, now, faults);
    var id := e.out.value.id;
    if !e.out.value.meta.deleted {
      var g := Get(e.db, id, None);
      HydrateInjective(id, ToRow(g.value), id, ToRow(e.out.value));
      assert g.value == HydrateTimeTracker(id, e.db.rows[id]);
      assert e.out.value == HydrateTimeTracker(id, ToRow(e.out.value));
    }
  }

  /** Whenever the commit succeeds, the source's `Store` and the corrected one agree. */
  lemma StoreAgreesWhenCommitSucceeds(db: Db, t: TimeTracker, version: Uint32, now: Time, faults: Faults)
    requires faults.commit.None?
    ensures StoreAsWritten(db, t, version, now, faults) == Store(db, t, version, now, faults)
  {
  }

  /**
   The source's `Store` discards the commit's error: with a failing commit it
   reports an updated record with a bumped version while the row keeps its
   old contents.
   */
  lemma CommitFailureReportsSuccess(db: Db, t: TimeTracker, version: Uint32, now: Time, faults: Faults)
    requires faults.begin.None? && faults.lock.None? && faults.write.None? && faults.commit.Some?
    requires version == CurrentVersion(db, t.id) && version != 0
    requires t.meta.version == version
    ensures var e := StoreAsWritten(db, t, version, now, faults);
      && e.out.Ok()
      && e.db.rows == db.rows
      && e.out.value.meta.version != e.db.rows[t.id].version
  {
  }

  /**
   With the source's `Store`, an update whose commit fails and its retry both
   report the same bumped version: the first report was never stored.
   */
  lemma RetryAfterFailedCommitRepeatsVersion(db: Db, t: TimeTracker, version: Uint32, now: Time, later: Time, faults: Faults)
    requires faults.begin.None? && faults.lock.None? && faults.write.None? && faults.commit.Some?
    requires version == CurrentVersion(db, t.id) && version != 0
    requires t.meta.version == version
    ensures var e1 := StoreAsWritten(db, t, version, now, faults);
      var e2 := StoreAsWritten(e1.db, t, version, later, NoFaults);
      && e1.out.Ok() && e2.out.Ok()
      && e1.out.value.meta.version == e2.out.value.meta.version == Bump(version)
  {
  }

  /** The corrected `Store` reports the failed commit instead. */
  lemma CommitFailureReported(db: Db, t: TimeTracker, version: Uint32, now: Time, faults: Faults)
    requires faults.commit.Some?
    ensures Store(db, t, version, now, faults).out.err.Some?
    ensures Store(db, t, version, now, faults).db.rows == db.rows
  {
  }

  /**
   At the uint32 limit the update wraps the version to 0, after which the row
   reads as never stored: storing the same record with version 0 inserts a
   second row under a new id instead of updating it.
   */
  lemma VersionWrapReopensInsert(db: Db, t: TimeTracker, now: Time, faults: Faults)
    requires Valid(db) && StoreRuns(faults)
    requires t.id in db.rows && db.rows[t.id].version == MaxUint32
    requires t.meta.version == MaxUint32
    ensures var e1 := Store(db, t, MaxUint32, now, faults);
      var e2 := Store(e1.db, t, 0, now, faults);
      && e1.out.Ok() && e1.db.rows[t.id].version == 0
      && e2.out.Ok() && e2.out.value.id != t.id
      && t.id in e2.db.rows && e2.out.value.id in e2.db.rows
  {
    StoreUpdates(db, t, MaxUint32, now, faults);
    var e1 := Store(db, t, MaxUint32, now, faults);
    assert e1.db.nextId !in e1.db.rows;
    StoreInserts(e1.db, t, now, faults);
  }

  /** `Store` keeps the table valid. */
  lemma StorePreservesValid(db: Db, t: TimeTracker, version: Uint32, now: Time, faults: Faults)
    requires Valid(db)
    ensures Valid(Store(db, t, version, now, faults).db)
  {
  }

  /** `Get` answers with a record exactly for rows that exist and are not deleted. */
  lemma GetHidesDeleted(db: Db, id: nat)
    ensures Get(db, id, None).Ok() <==> id in db.rows && !db.rows[id].deleted
    ensures !Get(db, id, None).Ok() ==> Get(db, id, None) == Result(Empty, Some(TimeTrackerNotFound))
  {
  }

  /** After a successful `Delete` the record is no longer readable. */
  lemma DeleteHidesRecord(db: Db, id: nat, now: Time)
    ensures Get(Delete(db, id, now, None).db, id, None).err == Some(TimeTrackerNotFound)
  {
  }

  /** Deleting twice leaves the table as deleting once does (with the same clock). */
  lemma DeleteIdempotent(db: Db, id: nat, now: Time)
    ensures var once := Delete(db, id, now, None);
      Delete(once.db, id, now, None) == once
  {
    var once := Delete(db, id, now, None);
    var twice := Delete(once.db, id, now, None);
    assert twice.db.rows == once.db.rows;
  }

  /** `Delete` keeps the table valid. */
  lemma DeletePreservesValid(db: Db, id: nat, now: Time, fault: Option<DbError>)
    requires Valid(db)
    ensures Valid(Delete(db, id, now, fault).db)
  {
  }
}
