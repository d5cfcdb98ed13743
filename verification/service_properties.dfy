/**
 Properties of the service layer over the repository model, and what the
 update handler answers for the errors the service produces.
 */
module ServiceProperties {
  import opened Wrappers
  import opened Errors
  import opened Domain
  import opened Models
  import opened Repository
  import opened StoreProperties
  import opened Services
  import opened Handlers

  /** In a valid table no record has id 0, so `GetTracker`'s zero check never fires. */
  lemma GetTrackerZeroCheckUnreachable(db: Db, id: nat, faults: Faults)
    requires Valid(db)
    ensures GetTracker(db, id, faults).err != Some(TrackerNotFound)
    ensures GetTracker(db, id, faults).Ok() <==> Get(db, id, faults.read).Ok()
  {
  }

  /**
   A create in a valid table stores an open interval with the given start and
   name under a fresh id, at version 1 with created_at = updated_at = now, and
   `GetTracker` reads it back.
   */
  lemma CreateThenGet(db: Db, params: CreateParams, now: Time, faults: Faults)
    requires Valid(db) && StoreRuns(faults) && faults.read.None?
    ensures var e := CreateTracker(db, params, now, faults);
      && e.out.Ok()
      && e.out.value.id !in db.rows
      && e.out.value.start == params.start && e.out.value.name == params.name
      && IsZeroTime(e.out.value.end)
      && e.out.value.meta == Meta(false, now, now, DefaultVersion)
      && GetTracker(e.db, e.out.value.id, faults) == e.out
  {
    var t := NewTimeTracker(0, params.start, ZeroTime, params.name);
    ValidInsertIsFresh(db, t, now, faults);
    StoreInserts(db, t, now, faults);
    StoredRecordIsReadBack(db, t, 0, now, faults);
    StorePreservesValid(db, t, 0, now, faults);
  }

  /** An update of a record `GetTracker` cannot return fails before any write. */
  lemma UpdateOfUnreadableWritesNothing(db: Db, params: UpdateParams, now: Time, faults: Faults)
    requires !GetTracker(db, params.id, faults).Ok()
    ensures UpdateTrackerAsWritten(db, params, now, faults).db == db
    ensures UpdateTracker(db, params, now, faults).db == db
    ensures UpdateTrackerAsWritten(db, params, now, faults).out.err == GetTracker(db, params.id, faults).err
  {
  }

  /** A missing or soft-deleted record surfaces as the wrapped repository sentinel. */
  lemma UpdateOfMissingWrapsNotFound(db: Db, params: UpdateParams, now: Time, faults: Faults)
    requires faults.read.None?
    requires params.id !in db.rows || db.rows[params.id].deleted
    ensures UpdateTrackerAsWritten(db, params, now, faults).out.err == Some(Wrap(TimeTrackerNotFound, "failed to get tracker"))
  {
  }

  /** The service's own `WrongVersionProvided` never comes out of the source's service. */
  lemma WrongVersionProvidedNeverProduced(db: Db, params: UpdateParams, cparams: CreateParams, id: nat, now: Time, faults: Faults)
    ensures UpdateTrackerAsWritten(db, params, now, faults).out.err != Some(WrongVersionProvided)
    ensures CreateTracker(db, cparams, now, faults).out.err != Some(WrongVersionProvided)
    ensures GetTracker(db, id, faults).err != Some(WrongVersionProvided)
  {
  }

  /** A stale version comes back as the repository's sentinel wrapped by the service, and nothing is written. */
  lemma StaleUpdateIsWrapped(db: Db, params: UpdateParams, now: Time, faults: Faults)
    requires Valid(db) && StoreRuns(faults) && faults.read.None?
    requires params.id in db.rows && !db.rows[params.id].deleted
    requires params.version != db.rows[params.id].version
    ensures var e := UpdateTrackerAsWritten(db, params, now, faults);
      && e.out.err == Some(Wrap(WrongVersion, "failed to store tracker"))
      && e.db == db
  {
    var g := GetTracker(db, params.id, faults);
    assert g.Ok();
    StaleVersionRejected(db, Merge(g.value, params), params.version, now, faults);
  }

  /**
   An update with the current version succeeds: the returned record has the
   stored start, the merged end and name, and a version one higher.
   */
  lemma FreshUpdateBumpsVersion(db: Db, params: UpdateParams, now: Time, faults: Faults)
    requires Valid(db) && StoreRuns(faults) && faults.read.None?
    requires params.id in db.rows && !db.rows[params.id].deleted
    requires 0 < params.version == db.rows[params.id].version < MaxUint32
    ensures var e := UpdateTrackerAsWritten(db, params, now, faults);
      var row := db.rows[params.id];
      && e.out.Ok()
      && e.out.value.id == params.id
      && e.out.value.start == row.start
      && e.out.value.end == (if IsZeroTime(params.end) then row.end else params.end)
      && e.out.value.name == (if params.name == "" then row.name else params.name)
      && e.out.value.meta.version == row.version + 1
      && GetTracker(e.db, params.id, faults) == e.out
  {
    var g := GetTracker(db, params.id, faults);
    var t := Merge(g.value, params);
    StoreUpdates(db, t, params.version, now, faults);
    StoredRecordIsReadBack(db, t, params.version, now, faults);
    StorePreservesValid(db, t, params.version, now, faults);
  }

  /**
   The source's create reports a record whose commit failed: the result has
   no error, yet no row holds its id.
   */
  lemma CreateReportsUncommittedRecord(db: Db, params: CreateParams, now: Time, faults: Faults)
    requires Valid(db)
    requires faults.begin.None? && faults.lock.None? && faults.write.None? && faults.commit.Some?
    ensures var e := CreateTracker(db, params, now, faults);
      && e.out.Ok()
      && e.out.value.id !in e.db.rows
  {
    assert db.nextId !in db.rows;
  }

  /**
   The corrected update reports a failed commit as the wrapped driver error
   and leaves the rows as they were; the source's update reports success.
   */
  lemma UpdateReportsFailedCommit(db: Db, params: UpdateParams, now: Time, faults: Faults)
    requires Valid(db) && faults.read.None?
    requires faults.begin.None? && faults.lock.None? && faults.write.None? && faults.commit.Some?
    requires params.id in db.rows && !db.rows[params.id].deleted
    requires 0 < params.version == db.rows[params.id].version
    ensures UpdateTracker(db, params, now, faults).out.err == Some(Wrap(Driver(faults.commit.value), "failed to store tracker"))
    ensures UpdateTracker(db, params, now, faults).db.rows == db.rows
    ensures UpdateTrackerAsWritten(db, params, now, faults).out.Ok()
  {
    var g := GetTracker(db, params.id, faults);
    assert g.Ok();
    var w := Wrap(Driver(faults.commit.value), "failed to store tracker");
    IsUnwrappedIffRoot(w, TimeTrackerNotFound);
    IsUnwrappedIffRoot(w, WrongVersion);
  }

  /** After `DeleteTracker`, `GetTracker` fails with the wrapped not-found sentinel. */
  lemma DeleteThenGet(db: Db, id: nat, now: Time, faults: Faults)
    requires faults.exec.None? && faults.read.None?
    ensures var d := DeleteTracker(db, id, now, faults);
      && d.out.None?
      && GetTracker(d.db, id, faults).err == Some(Wrap(TimeTrackerNotFound, "failed to get tracker"))
  {
    DeleteHidesRecord(db, id, now);
  }

  /** Through the source's service, a stale update answers 500, not the handler's intended 409. */
  lemma StaleUpdateAnswers500(db: Db, params: UpdateParams, now: Time, faults: Faults)
    requires Valid(db) && StoreRuns(faults) && faults.read.None?
    requires params.id in db.rows && !db.rows[params.id].deleted
    requires params.version != db.rows[params.id].version
    ensures UpdateStatus(UpdateTrackerAsWritten(db, params, now, faults).out.err.value) == StatusInternalServerError
  {
    StaleUpdateIsWrapped(db, params, now, faults);
  }

  /** Through the source's service, an update of a missing record answers 500, not 404. */
  lemma MissingUpdateAnswers500(db: Db, params: UpdateParams, now: Time, faults: Faults)
    requires faults.read.None?
    requires params.id !in db.rows || db.rows[params.id].deleted
    ensures UpdateStatus(UpdateTrackerAsWritten(db, params, now, faults).out.err.value) == StatusInternalServerError
  {
    UpdateOfMissingWrapsNotFound(db, params, now, faults);
  }

  /** Through the translating service, a stale update answers 409 and writes nothing. */
  lemma StaleUpdateAnswers409(db: Db, params: UpdateParams, now: Time, faults: Faults)
    requires Valid(db) && StoreRuns(faults) && faults.read.None?
    requires params.id in db.rows && !db.rows[params.id].deleted
    requires params.version != db.rows[params.id].version
    ensures UpdateTracker(db, params, now, faults).out.err == Some(WrongVersionProvided)
    ensures UpdateStatus(UpdateTracker(db, params, now, faults).out.err.value) == StatusConflict
    ensures UpdateTracker(db, params, now, faults).db == db
  {
    StaleUpdateIsWrapped(db, params, now, faults);
  }

  /** Through the translating service, an update of a missing record answers 404 and writes nothing. */
  lemma MissingUpdateAnswers404(db: Db, params: UpdateParams, now: Time, faults: Faults)
    requires faults.read.None?
    requires params.id !in db.rows || db.rows[params.id].deleted
    ensures UpdateTracker(db, params, now, faults).out.err == Some(TrackerNotFound)
    ensures UpdateStatus(UpdateTracker(db, params, now, faults).out.err.value) == StatusNotFound
    ensures UpdateTracker(db, params, now, faults).db == db
  {
    UpdateOfMissingWrapsNotFound(db, params, now, faults);
  }
}
