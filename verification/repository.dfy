/**
 The Postgres-backed tracker repository (backend/repositories/postgresql/tracker.go).

 The `time_tracker` table is a map from id to row plus the value the id
 sequence hands out next. Each call is a deterministic state transition:
 the clock (`now`, standing for SQL `NOW()`) and every way the database can
 fail (`Faults`) are parameters. Rolling a transaction back restores the rows
 but not the sequence: Postgres never returns a drawn sequence value.
 */
module Repository {
  import opened Wrappers
  import opened Errors
  import opened Domain
  import opened Models

  /** Version the `version` column default gives a freshly inserted row. */
  const DefaultVersion: Uint32 := 1

  datatype Row = Row(start: Time, end: Time, name: string, createdAt: Time, updatedAt: Time, deleted: bool, version: Uint32)

  datatype Db = Db(rows: map<nat, Row>, nextId: nat)

  /** Ids come from the sequence, which starts at 1. */
  predicate Valid(db: Db) {
    db.nextId >= 1 && forall id :: id in db.rows ==> 1 <= id < db.nextId
  }

  /** Which statements of one call fail in the database, and with what driver error. */
  datatype Faults = Faults(
    begin: Option<DbError>,   // pool.Begin
    lock: Option<DbError>,    // SELECT ... FOR UPDATE NOWAIT (a held lock included)
    write: Option<DbError>,   // INSERT / UPDATE ... RETURNING
    commit: Option<DbError>,  // tx.Commit
    read: Option<DbError>,    // SELECT in Get
    exec: Option<DbError>     // UPDATE in Delete
  )

  const NoFaults: Faults := Faults(None, None, None, None, None, None)

  /** None of the statements `Store` issues fails. */
  predicate StoreRuns(f: Faults) {
    f.begin.None? && f.lock.None? && f.write.None? && f.commit.None?
  }

  /** How a single-row query ended, before `scan` maps it. */
  datatype QueryError = NoRows | PgUniqueViolation | DriverFailure(code: DbError)
  datatype RowResult = Returned(id: nat, row: Row) | QueryFailed(failure: QueryError)

  /** The outcome of a call together with the table it leaves behind. */
  datatype Effect<T> = Effect(out: T, db: Db)

  /** Go's `version+1` on a `uint32`. */
  function Bump(v: Uint32): (r: Uint32)
    ensures v < MaxUint32 ==> r == v + 1
    ensures v == MaxUint32 ==> r == 0
    ensures r != v
  {
    (v + 1) % (MaxUint32 + 1)
  }

  /** The row a record's fields describe: the inverse of `HydrateTimeTracker`. */
  function ToRow(t: TimeTracker): Row {
    Row(t.start, t.end, t.name, t.meta.createdAt, t.meta.updatedAt, t.meta.deleted, t.meta.version)
  }

  /** `hydrateTimeTracker`: a record built from a scanned row. */
  function HydrateTimeTracker(id: nat, row: Row): (t: TimeTracker)
    ensures t.id == id && ToRow(t) == row
  {
    var t := NewTimeTracker(id, row.start, row.end, row.name);
    t.(meta := HydrateMeta(t.meta, row.deleted, row.createdAt, row.updatedAt, row.version))
  }

  /** Hydration loses nothing: distinct rows give distinct records. */
  lemma HydrateInjective(id1: nat, r1: Row, id2: nat, r2: Row)
    ensures HydrateTimeTracker(id1, r1) == HydrateTimeTracker(id2, r2) <==> id1 == id2 && r1 == r2
  {
    var t1, t2 := HydrateTimeTracker(id1, r1), HydrateTimeTracker(id2, r2);
    if t1 == t2 {
      assert r1 == ToRow(t1) == ToRow(t2) == r2;
    }
  }

  /** `scan`: maps a query's end to a record or to one of the repository's errors. */
  function Scan(q: RowResult): (r: Result<TimeTracker>)
    ensures r.Ok() <==> q.Returned?
    ensures r.Ok() ==> r.value.id == q.id && ToRow(r.value) == q.row
    ensures !r.Ok() ==> r.value == Empty
    ensures q == QueryFailed(NoRows) ==> r.err == Some(TimeTrackerNotFound)
    ensures q == QueryFailed(PgUniqueViolation) ==> r.err == Some(UniqueViolation)
    ensures q.QueryFailed? && q.failure.DriverFailure? ==> r.err == Some(Driver(q.failure.code))
  {
    match q
    case Returned(id, row) => Result(HydrateTimeTracker(id, row), None)
    case QueryFailed(NoRows) => Result(Empty, Some(TimeTrackerNotFound))
    case QueryFailed(PgUniqueViolation) => Result(Empty, Some(UniqueViolation))
    case QueryFailed(DriverFailure(code)) => Result(Empty, Some(Driver(code)))
  }

  /** The version stored for `id`, deleted or not; a missing row reads as 0. */
  function CurrentVersion(db: Db, id: nat): Uint32 {
    if id in db.rows then db.rows[id].version else 0
  }

  /** `lockForUpdate`: reads the version without filtering soft-deleted rows. */
  function LockForUpdate(db: Db, id: nat, fault: Option<DbError>): (r: Result<Uint32>)
    ensures fault.Some? ==> r.err == Some(Driver(fault.value)) && r.value == 0
    ensures fault.None? ==> r.Ok() && r.value == CurrentVersion(db, id)
  {
    if fault.Some? then Result(0, Some(Driver(fault.value)))
    else if id in db.rows then Result(db.rows[id].version, None)
    else Result(0, None)
  }

  /** The row an insert of `t` creates: its start, end and name, column defaults for the rest. */
  function NewRow(t: TimeTracker, now: Time): Row {
    Row(t.start, t.end, t.name, now, now, false, DefaultVersion)
  }

  /**
   `create`: INSERT ... RETURNING. The id comes from the sequence; the record's
   own id and metadata are not sent. The sequence advances even when the
   statement fails.
   */
  function Insert(db: Db, t: TimeTracker, now: Time, fault: Option<DbError>): (e: Effect<RowResult>)
    ensures e.db.nextId == db.nextId + 1
    ensures fault.Some? ==> e.out == QueryFailed(DriverFailure(fault.value))
    ensures e.out.Returned? <==> fault.None? && db.nextId !in db.rows
    ensures e.out.Returned? ==>
      e.out.id == db.nextId && e.out.row == NewRow(t, now) && e.db.rows == db.rows[db.nextId := NewRow(t, now)]
    ensures e.out.QueryFailed? ==> e.db.rows == db.rows
    ensures fault.None? && db.nextId in db.rows ==> e.out == QueryFailed(PgUniqueViolation)
  {
    var id := db.nextId;
    if fault.Some? then Effect(QueryFailed(DriverFailure(fault.value)), db.(nextId := id + 1))
    else if id in db.rows then Effect(QueryFailed(PgUniqueViolation), db.(nextId := id + 1))
    else Effect(Returned(id, NewRow(t, now)), Db(db.rows[id := NewRow(t, now)], id + 1))
  }

  /** The row `update` leaves: start, end and name from `t`, a bumped version, a fresh updated_at. */
  function UpdatedRow(prior: Row, t: TimeTracker, version: Uint32, now: Time): Row {
    prior.(start := t.start, end := t.end, name := t.name, version := Bump(version), updatedAt := now)
  }

  /**
   `update`: UPDATE ... WHERE id = t.id AND version = t.meta.version. The
   condition uses the record's own metadata version, not the version the
   caller supplied to `Store`.
   */
  function Update(db: Db, t: TimeTracker, version: Uint32, now: Time, fault: Option<DbError>): (e: Effect<RowResult>)
    ensures e.db.nextId == db.nextId
    ensures fault.Some? ==> e.out == QueryFailed(DriverFailure(fault.value))
    ensures e.out.Returned? <==> fault.None? && t.id in db.rows && db.rows[t.id].version == t.meta.version
    ensures e.out.Returned? ==>
      e.out.id == t.id && e.out.row == UpdatedRow(db.rows[t.id], t, version, now) && e.db.rows == db.rows[t.id := e.out.row]
    ensures e.out.QueryFailed? ==> e.db == db
    ensures fault.None? && !e.out.Returned? ==> e.out == QueryFailed(NoRows)
  {
    if fault.Some? then Effect(QueryFailed(DriverFailure(fault.value)), db)
    else if t.id in db.rows && db.rows[t.id].version == t.meta.version then
      var row := UpdatedRow(db.rows[t.id], t, version, now);
      Effect(Returned(t.id, row), db.(rows := db.rows[t.id := row]))
    else Effect(QueryFailed(NoRows), db)
  }

  /** A rolled-back transaction: the rows of `before`, the sequence of `after`. */
  function Rollback(before: Db, after: Db): Db {
    Db(before.rows, after.nextId)
  }

  /**
   `Store` up to, but not including, the commit: begin, lock the row, compare
   versions, then insert (current version 0) or update (any other version),
   rolling back on a failed write.
   */
  function Attempt(db: Db, t: TimeTracker, version: Uint32, now: Time, faults: Faults): (e: Effect<Result<TimeTracker>>)
    ensures faults.begin.Some? ==>
      e.out.err == Some(Wrap(Driver(faults.begin.value), "failed to begin transaction")) && e.db == db
    ensures faults.begin.None? && faults.lock.Some? ==> e.out.err == Some(Driver(faults.lock.value)) && e.db == db
    ensures faults.begin.None? && faults.lock.None? && version != CurrentVersion(db, t.id) ==>
      e.out.err == Some(WrongVersion) && e.db == db
    ensures faults.begin.None? && faults.lock.None? && version == CurrentVersion(db, t.id) && faults.write.Some? ==>
      e.out.err == Some(Driver(faults.write.value))
    ensures !e.out.Ok() ==> e.out.value == Empty && e.db.rows == db.rows
    ensures e.out.Ok() ==> e.out.value.id in e.db.rows && ToRow(e.out.value) == e.db.rows[e.out.value.id]
    ensures e.out.Ok() ==> faults.begin.None? && faults.lock.None? && faults.write.None? && version == CurrentVersion(db, t.id)
  {
    if faults.begin.Some? then
      Effect(Result(Empty, Some(Wrap(Driver(faults.begin.value), "failed to begin transaction"))), db)
    else
      var lock := LockForUpdate(db, t.id, faults.lock);
      if !lock.Ok() then Effect(Result(Empty, lock.err), db)
      else if lock.value != version then Effect(Result(Empty, Some(WrongVersion)), db)
      else
        var w := if lock.value == 0 then Insert(db, t, now, faults.write) else Update(db, t, version, now, faults.write);
        var r := Scan(w.out);
        if !r.Ok() then Effect(r, Rollback(db, w.db)) else Effect(r, w.db)
  }

  /**
   `Store` as the source writes it: the error `tx.Commit()` returns is
   discarded, so a failed commit still reports the written record.
   */
  function StoreAsWritten(db: Db, t: TimeTracker, version: Uint32, now: Time, faults: Faults): (e: Effect<Result<TimeTracker>>)
    ensures !e.out.Ok() ==> e.out.value == Empty && e.db.rows == db.rows
    ensures faults.commit.Some? ==> e.db.rows == db.rows
  {
    var a := Attempt(db, t, version, now, faults);
    if a.out.Ok() && faults.commit.Some? then Effect(a.out, Rollback(db, a.db)) else a
  }

  /**
   `Store` with the commit checked: lock the row, compare versions, then
   insert (current version 0) or update (any other version).
   */
  function Store(db: Db, t: TimeTracker, version: Uint32, now: Time, faults: Faults): (e: Effect<Result<TimeTracker>>)
    ensures !e.out.Ok() ==> e.out.value == Empty && e.db.rows == db.rows
    ensures e.db.nextId == db.nextId || e.db.nextId == db.nextId + 1
    ensures faults.begin.None? && faults.lock.None? && version != CurrentVersion(db, t.id) ==>
      e.out.err == Some(WrongVersion) && e.db == db
    ensures e.out.Ok() ==> e.out.value.id in e.db.rows && ToRow(e.out.value) == e.db.rows[e.out.value.id]
    ensures e != StoreAsWritten(db, t, version, now, faults) <==>
      Attempt(db, t, version, now, faults).out.Ok() && faults.commit.Some?
  {
    var a := Attempt(db, t, version, now, faults);
    if a.out.Ok() && faults.commit.Some? then
      Effect(Result(Empty, Some(Driver(faults.commit.value))), Rollback(db, a.db))
    else a
  }

  /** `Get`: the row with that id unless it is soft-deleted. */
  function Get(db: Db, id: nat, fault: Option<DbError>): (r: Result<TimeTracker>)
    ensures fault.Some? ==> r.err == Some(Driver(fault.value))
    ensures fault.None? ==> (r.Ok() <==> id in db.rows && !db.rows[id].deleted)
    ensures fault.None? && !r.Ok() ==> r.err == Some(TimeTrackerNotFound)
    ensures r.Ok() ==> r.value.id == id && id in db.rows && ToRow(r.value) == db.rows[id]
    ensures !r.Ok() ==> r.value == Empty
  {
    if fault.Some? then Scan(QueryFailed(DriverFailure(fault.value)))
    else if id in db.rows && !db.rows[id].deleted then Scan(Returned(id, db.rows[id]))
    else Scan(QueryFailed(NoRows))
  }

  /** `Delete`: sets the soft-delete flag and refreshes updated_at; an absent id is not an error. */
  function Delete(db: Db, id: nat, now: Time, fault: Option<DbError>): (e: Effect<Option<Error>>)
    ensures fault.Some? ==> e.out == Some(Wrap(Driver(fault.value), "failed to set to deleted")) && e.db == db
    ensures fault.None? ==> e.out.None? && e.db.nextId == db.nextId && e.db.rows.Keys == db.rows.Keys
    ensures fault.None? && id in db.rows ==>
      e.db.rows[id] == db.rows[id].(deleted := true, updatedAt := now)
    ensures forall k :: k in db.rows && k != id ==> e.db.rows[k] == db.rows[k]
  {
    if fault.Some? then Effect(Some(Wrap(Driver(fault.value), "failed to set to deleted")), db)
    else if id in db.rows then
      Effect(None, db.(rows := db.rows[id := db.rows[id].(deleted := true, updatedAt := now)]))
    else Effect(None, db)
  }
}
