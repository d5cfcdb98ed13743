/**
 The tracker service (backend/domain/tracker/services/tracker.go).

 It builds records from caller parameters, merges updates into the fetched
 record and forwards to the repository. `CreateTracker` and
 `UpdateTrackerAsWritten` are the source's functions over the source's
 `Store`: they wrap every repository error with context and never produce
 the service's own `WrongVersionProvided`. `UpdateTracker` is the corrected
 variant: it stores through the `Store` that reports a failed commit and
 translates the two recoverable failures into the service's sentinels.
 */
module Services {
  import opened Wrappers
  import opened Errors
  import opened Domain
  import opened Models
  import opened Repository

  datatype CreateParams = CreateParams(start: Time, name: string)

  datatype UpdateParams = UpdateParams(id: nat, start: Time, end: Time, name: string, version: Uint32)

  /** `GetTracker`: the repository's record, with its errors wrapped and a zero record refused. */
  function GetTracker(db: Db, id: nat, faults: Faults): (r: Result<TimeTracker>)
    ensures var g := Get(db, id, faults.read);
      && (!g.Ok() ==> r.err == Some(Wrap(g.err.value, "failed to get tracker")))
      && (g.Ok() && IsZero(g.value) ==> r.err == Some(TrackerNotFound))
      && (g.Ok() && !IsZero(g.value) ==> r == g)
      && (r.Ok() ==> r.value == g.value && !IsZero(r.value))
    ensures !r.Ok() ==> r.value == Empty
  {
    var g := Get(db, id, faults.read);
    if !g.Ok() then Result(Empty, Some(Wrap(g.err.value, "failed to get tracker")))
    else if IsZero(g.value) then Result(Empty, Some(TrackerNotFound))
    else g
  }

  /**
   `CreateTracker`: stores a fresh open interval (id 0, zero end) with
   expected version 0 through the repository's `Store` as the source writes it.
   */
  function CreateTracker(db: Db, params: CreateParams, now: Time, faults: Faults): (e: Effect<Result<TimeTracker>>)
    ensures var s := StoreAsWritten(db, NewTimeTracker(0, params.start, ZeroTime, params.name), 0, now, faults);
      && e.db == s.db
      && (s.out.Ok() ==> e.out == s.out)
      && (!s.out.Ok() ==> e.out == Result(Empty, Some(Wrap(s.out.err.value, "failed to store time tracker"))))
  {
    var s := StoreAsWritten(db, NewTimeTracker(0, params.start, ZeroTime, params.name), 0, now, faults);
    if !s.out.Ok() then Effect(Result(Empty, Some(Wrap(s.out.err.value, "failed to store time tracker"))), s.db)
    else s
  }

  /** The fetched record with a non-zero `end` and a non-empty `name` taken from the parameters. */
  function Merge(fetched: TimeTracker, params: UpdateParams): (t: TimeTracker)
    ensures t.id == fetched.id && t.start == fetched.start && t.meta == fetched.meta
    ensures !IsZeroTime(params.end) ==> t.end == params.end
    ensures IsZeroTime(params.end) ==> t.end == fetched.end
    ensures params.name != "" ==> t.name == params.name
    ensures params.name == "" ==> t.name == fetched.name
  {
    var withEnd := if !IsZeroTime(params.end) then fetched.(end := params.end) else fetched;
    if params.name != "" then withEnd.(name := params.name) else withEnd
  }

  /**
   `UpdateTracker` as the source writes it: fetch, merge, store with the
   caller's version through the source's `Store`, wrap store errors.
   */
  function UpdateTrackerAsWritten(db: Db, params: UpdateParams, now: Time, faults: Faults): (e: Effect<Result<TimeTracker>>)
    ensures var g := GetTracker(db, params.id, faults);
      && (!g.Ok() ==> e == Effect(g, db))
      && (g.Ok() ==> var s := StoreAsWritten(db, Merge(g.value, params), params.version, now, faults);
            && e.db == s.db
            && (s.out.Ok() ==> e.out == s.out)
            && (!s.out.Ok() ==> e.out.err == Some(Wrap(s.out.err.value, "failed to store tracker"))))
    ensures !e.out.Ok() ==> e.out.value == Empty
  {
    var g := GetTracker(db, params.id, faults);
    if !g.Ok() then Effect(Result(Empty, g.err), db)
    else if IsZero(g.value) then Effect(Result(Empty, Some(TrackerNotFound)), db)
    else
      var s := StoreAsWritten(db, Merge(g.value, params), params.version, now, faults);
      if !s.out.Ok() then Effect(Result(Empty, Some(Wrap(s.out.err.value, "failed to store tracker"))), s.db)
      else s
  }

  /**
   `UpdateTracker` corrected twice over: it stores through the `Store` that
   reports a failed commit, and it translates the two recoverable failures
   for the handler. A record the repository cannot find becomes
   `TrackerNotFound` and a stale version becomes `WrongVersionProvided`;
   every other error is wrapped as before. Whenever the commit succeeds it
   writes what the source writes.
   */
  function UpdateTracker(db: Db, params: UpdateParams, now: Time, faults: Faults): (e: Effect<Result<TimeTracker>>)
    ensures faults.commit.None? ==> var a := UpdateTrackerAsWritten(db, params, now, faults);
      && e.db == a.db
      && (a.out.Ok() ==> e.out == a.out)
      && (!a.out.Ok() && Is(a.out.err.value, TimeTrackerNotFound) ==> e.out.err == Some(TrackerNotFound))
      && (!a.out.Ok() && Is(a.out.err.value, WrongVersion) ==> e.out.err == Some(WrongVersionProvided))
      && (!a.out.Ok() && !Is(a.out.err.value, TimeTrackerNotFound) && !Is(a.out.err.value, WrongVersion) ==> e.out == a.out)
      && (!a.out.Ok() ==> e.out.value == Empty)
    ensures !e.out.Ok() ==> e.out.value == Empty && e.db.rows == db.rows
    ensures e.out.Ok() ==> e.out.value.id in e.db.rows && ToRow(e.out.value) == e.db.rows[e.out.value.id]
  {
    var g := GetTracker(db, params.id, faults);
    if !g.Ok() then Effect(Result(Empty, Some(Translate(g.err.value))), db)
    else if IsZero(g.value) then Effect(Result(Empty, Some(TrackerNotFound)), db)
    else
      var s := Store(db, Merge(g.value, params), params.version, now, faults);
      if !s.out.Ok() then Effect(Result(Empty, Some(Translate(Wrap(s.out.err.value, "failed to store tracker")))), s.db)
      else s
  }

  /** The service's reading of a repository failure. */
  function Translate(err: Error): (r: Error)
    ensures Is(err, TimeTrackerNotFound) ==> r == TrackerNotFound
    ensures Is(err, WrongVersion) ==> r == WrongVersionProvided
    ensures !Is(err, TimeTrackerNotFound) && !Is(err, WrongVersion) ==> r == err
  {
    IsUnwrappedIffRoot(err, TimeTrackerNotFound);
    IsUnwrappedIffRoot(err, WrongVersion);
    if Is(err, TimeTrackerNotFound) then TrackerNotFound
    else if Is(err, WrongVersion) then WrongVersionProvided
    else err
  }

  /** `DeleteTracker`: soft-deletes through the repository and wraps its error. */
  function DeleteTracker(db: Db, id: nat, now: Time, faults: Faults): (e: Effect<Option<Error>>)
    ensures var d := Delete(db, id, now, faults.exec);
      && e.db == d.db
      && (d.out.None? <==> e.out.None?)
      && (d.out.Some? ==> e.out == Some(Wrap(d.out.value, "failed to delete user")))
  {
    var d := Delete(db, id, now, faults.exec);
    if d.out.Some? then Effect(Some(Wrap(d.out.value, "failed to delete user")), d.db) else d
  }
}
