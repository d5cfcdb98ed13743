# Time-tracker record mutation, modelled in Dafny

This project models the backend of a time-tracking service. It records intervals with a start, an end, a name,
a soft-delete flag, timestamps and a version counter, and stores them in a Postgres table `time_tracker`. The model
covers the record-mutation path:

- the repository `TrackerStore`: `Store` with its optimistic version check, `lockForUpdate`, `create`, `update`,
  `Get`, `Delete`, the error mapping of `scan`, and `hydrateTimeTracker`;
- the service `TrackerService`: `GetTracker`, `CreateTracker`, `UpdateTracker` and `DeleteTracker`;
- the value types `Meta` and `TimeTracker`;
- the pure parts of the HTTP handlers: `fromDomain`, `fromDomainSlice`, the update handler's error-to-status
  switch, and the list handler's choice of bounds.

The table is a `map<nat, Row>` plus the next value of the id sequence (`Repository.Db`). Every operation is a pure
function that returns its Go `(value, error)` pair (`Errors.Result`) together with the table it leaves
(`Repository.Effect`). The clock is the parameter `now`, standing for SQL `NOW()`. Every way the database can fail
is the parameter `Faults`: begin, a lock held elsewhere (`FOR UPDATE NOWAIT`), the write, the commit, the read in
`Get`, and the statement in `Delete`. Each failure carries an opaque driver error code. Timestamps are opaque
integers, with 0 for Go's zero `time.Time`. Versions are `uint32`. The `version+1` of the update wraps explicitly
(`Repository.Bump`). A fresh row's version comes from the column default and is the constant
`Repository.DefaultVersion` = 1, as the integration test expects. A rolled-back transaction restores the rows but
not the sequence: a drawn sequence value is never returned.

Notable behaviour of the source that the lemmas make explicit:

- the version lookup does not skip soft-deleted rows, so `Store` updates a deleted row, and the row stays deleted;
- the conditioned `UPDATE` matches on the record's own metadata version, not on the version the caller supplied.
  When they differ, the call ends in the not-found sentinel and nothing is written;
- at version 4294967295 the update wraps the row to version 0. From then on the row reads as never stored, and
  storing it with version 0 inserts a second row under a new id;
- `Delete` needs no version and succeeds for an absent id. Deleting twice with the same clock is the same as
  deleting once; a later second delete refreshes updated_at again.

In Dafny, values are immutable. So the `Meta` getters cannot modify a `Meta`, and `HydrateMeta` returns the
overwritten value instead of mutating its receiver.

## Model

| member | source | states |
|---|---|---|
| Errors.Is | backend/domain/tracker/services/tracker.go:108-111 | Go's `errors.Is` over `%w` chains: the target is the error itself or appears among its causes; `Errors.IsUnwrappedIffRoot` characterises it for an unwrapped target |
| Errors.Root | backend/domain/tracker/services/tracker.go:108-111 | the innermost error of a `%w` chain wraps nothing, and `errors.Is` finds it on the chain |
| Errors.IsUnwrappedIffRoot | backend/domain/tracker/services/tracker.go:108-111 | for a target that wraps nothing, `errors.Is` holds exactly when the chain ends in that target |
| Errors.Wrap | backend/domain/tracker/services/tracker.go:59 | a `%w`-wrapped error equals neither its cause nor any sentinel, yet `errors.Is` still finds the cause |
| Domain.GetDeleted | backend/domain/meta.go:21-23 | reads the deleted flag; `Domain.GettersDetermineMeta` shows the four getters together expose the whole value |
| Domain.GetCreatedAt | backend/domain/meta.go:25-27 | reads the creation time; see `Domain.GettersDetermineMeta` |
| Domain.GetUpdatedAt | backend/domain/meta.go:29-31 | reads the last-update time; see `Domain.GettersDetermineMeta` |
| Domain.GetVersion | backend/domain/meta.go:33-35 | reads the version; see `Domain.GettersDetermineMeta` |
| Domain.GettersDetermineMeta | backend/domain/meta.go:21-35 | two metadata values agree on all four getters exactly when they are equal: the getters hide no field |
| Domain.NewMeta | backend/domain/meta.go:12-19 | fresh metadata is not deleted, has zero created/updated times and version 0 |
| Domain.HydrateMeta | backend/domain/meta.go:21-42 | after hydration the four getters return exactly the hydrated values |
| Domain.HydrateIgnoresPriorState | backend/domain/meta.go:37-42 | hydration overwrites all four fields; the prior metadata never shows through |
| Domain.HydrateFromGetters | backend/domain/meta.go:21-42 | hydrating with what the getters read back reproduces the metadata (getters lose nothing) |
| Models.NewTimeTracker | backend/domain/tracker/models/tracker.go:16-24 | id, start, end and name are as given, the metadata is `NewMeta()`, and the result is zero exactly when all four inputs are |
| Models.IsZero | backend/domain/tracker/models/tracker.go:26-31 | zero id, zero start, zero end and empty name, with the metadata not consulted; characterised by `Models.NewTimeTracker`, `Models.IsZeroMeansEmptyButMeta` and `Models.IsZeroIgnoresMeta` |
| Models.EmptyIsZero | backend/domain/tracker/models/tracker.go:26-31 | the zero value returned beside errors is `IsZero` and equals `NewTimeTracker(0, zero, zero, "")` |
| Models.IsZeroMeansEmptyButMeta | backend/domain/tracker/models/tracker.go:26-31 | `IsZero` holds exactly when the record equals the zero value once its metadata is disregarded |
| Models.IsZeroIgnoresMeta | backend/domain/tracker/models/tracker.go:26-31 | hydrating a record's metadata never changes `IsZero` |
| Repository.Bump | backend/repositories/postgresql/tracker.go:163 | uint32 `version+1`: one more below the limit, 0 at the limit, never the same version |
| Repository.HydrateTimeTracker | backend/repositories/postgresql/tracker.go:248-254 | the hydrated record has the scanned id, and `ToRow` gives back exactly the scanned row |
| Repository.HydrateInjective | backend/repositories/postgresql/tracker.go:248-254 | two hydrated records are equal exactly when their ids and rows are |
| Repository.Scan | backend/repositories/postgresql/tracker.go:170-201 | a returned row yields its record; no rows yields the not-found sentinel, a unique violation yields its sentinel, and any other error passes through; every error comes with the zero value |
| Repository.LockForUpdate | backend/repositories/postgresql/tracker.go:107-122 | reads the stored version of the id, deleted rows included; a missing row reads as 0; a lock or driver failure is returned as is |
| Repository.Insert | backend/repositories/postgresql/tracker.go:138-150 | inserts at the next sequence value a row with the record's start/end/name, default version, not deleted, both timestamps `now`; a taken id gives the unique-violation code; a driver failure comes back unchanged; the sequence always advances |
| Repository.Update | backend/repositories/postgresql/tracker.go:152-168 | succeeds exactly when the row exists with version equal to the record's metadata version; then it overwrites start/end/name, bumps the version, refreshes updated_at and changes nothing else; otherwise no rows and no change; a driver failure comes back unchanged with no change |
| Repository.Attempt | backend/repositories/postgresql/tracker.go:71-96 | `Store` before the commit: a failed begin gives the wrapped error, a failed lock the driver error, a version other than the stored one (0 if none) `WrongVersion`, all with the table unchanged; a failed INSERT or UPDATE returns its driver error unchanged; any error leaves the rows unchanged with the zero value; a success is what the table now holds, and only happens when begin, lock and write succeeded with the matching version |
| Repository.StoreAsWritten | backend/repositories/postgresql/tracker.go:69-105 | `Store` with the commit error discarded: every error comes with the zero value and unchanged rows, and a failed commit leaves the rows unchanged |
| Repository.Store | backend/repositories/postgresql/tracker.go:69-105 | corrected `Store`: a version differing from the stored one (0 if absent) gives `WrongVersion` and changes nothing; errors leave the rows unchanged with the zero value; a successful result is what the table now holds; it differs from `StoreAsWritten` exactly when everything before the commit succeeded and the commit failed |
| Repository.Get | backend/repositories/postgresql/tracker.go:30-39 | returns the record exactly when a row with that id exists and is not deleted, otherwise the not-found sentinel; driver errors pass through |
| Repository.Delete | backend/repositories/postgresql/tracker.go:124-136 | sets the deleted flag and updated_at of that id only, succeeds when the id is absent, and on failure returns the wrapped error and changes nothing |
| StoreProperties.StaleVersionRejected | backend/repositories/postgresql/tracker.go:77-86 | a supplied version other than the row's current one (0 if none) gives `WrongVersion` with the zero value, and the table is unchanged |
| StoreProperties.StoreInserts | backend/repositories/postgresql/tracker.go:88-89 | version 0 with no row inserts at the next sequence value, with start/end/name from the record, not deleted, version 1, both timestamps `now`; the sequence advances |
| StoreProperties.ValidInsertIsFresh | backend/repositories/postgresql/tracker_test.go:73-92 | in a valid table an insert succeeds with an id no existing row has, version 1 and created_at = updated_at |
| StoreProperties.InsertIgnoresIdAndMeta | backend/repositories/postgresql/tracker.go:138-150 | on the insert branch the record's id and metadata do not affect the outcome |
| StoreProperties.TakenSequenceValueViolatesUnique | backend/repositories/postgresql/tracker.go:187-190 | if the sequence value is already used, the insert yields `UniqueViolation`, and only the sequence moves |
| StoreProperties.StoreUpdates | backend/repositories/postgresql/tracker.go:90-91 | a matching non-zero version overwrites start/end/name, sets the version to the bumped one and updated_at to `now`, keeps id, created_at and deleted, and leaves every other row alone |
| StoreProperties.UpdateIncrementsByOne | backend/repositories/postgresql/tracker_test.go:93-114 | below the uint32 limit an update takes version v to v + 1 (the test's 1 to 2) |
| StoreProperties.ConditionedWriteMisses | backend/repositories/postgresql/tracker.go:152-168 | if the record's metadata version differs from the supplied one, the result is the not-found sentinel and the table is unchanged |
| StoreProperties.StoreUpdatesDeletedRow | backend/repositories/postgresql/tracker.go:110-114 | `Store` updates a soft-deleted row; the row stays deleted and `Get` still hides it |
| StoreProperties.StoredRecordIsReadBack | backend/repositories/postgresql/tracker.go:30-38 | a record `Store` returns is exactly what `Get` then reads, unless it is deleted |
| StoreProperties.StoreAgreesWhenCommitSucceeds | backend/repositories/postgresql/tracker.go:98-104 | with a successful commit, the source's `Store` and the corrected one coincide |
| StoreProperties.CommitFailureReportsSuccess | backend/repositories/postgresql/tracker.go:98-102 | with a failing commit the source reports a successful update, but the stored row keeps its old version |
| StoreProperties.RetryAfterFailedCommitRepeatsVersion | backend/repositories/postgresql/tracker.go:98-104 | with the source's `Store`, an update whose commit fails and its retry both report the same bumped version |
| StoreProperties.CommitFailureReported | backend/repositories/postgresql/tracker.go:98-102 | with a failing commit the corrected `Store` returns an error, and the rows are unchanged |
| StoreProperties.VersionWrapReopensInsert | backend/repositories/postgresql/tracker.go:88-91 | an update at version 4294967295 leaves the row at version 0, and storing the record again with version 0 inserts a second row under another id |
| StoreProperties.StorePreservesValid | backend/repositories/postgresql/tracker.go:69-105 | `Store` keeps every id between 1 and the sequence value |
| StoreProperties.GetHidesDeleted | backend/repositories/postgresql/tracker.go:30-38 | `Get` succeeds exactly for rows that exist and are not deleted, and otherwise returns the not-found sentinel with the zero value |
| StoreProperties.DeleteHidesRecord | backend/repositories/postgresql/tracker.go:124-135 | after `Delete(id)`, `Get(id)` gives the not-found sentinel |
| StoreProperties.DeleteIdempotent | backend/repositories/postgresql/tracker.go:124-135 | a second `Delete` of the same id at the same time changes nothing |
| StoreProperties.DeletePreservesValid | backend/repositories/postgresql/tracker.go:124-135 | `Delete` keeps the table valid |
| Services.GetTracker | backend/domain/tracker/services/tracker.go:56-67 | repository errors come back wrapped; a zero record gives `TrackerNotFound`; otherwise the repository's record is returned |
| Services.CreateTracker | backend/domain/tracker/services/tracker.go:79-88 | calls the source's `Store` (`StoreAsWritten`) with id 0, zero end, the given start and name and version 0, and returns its record or its error wrapped |
| Services.Merge | backend/domain/tracker/services/tracker.go:100-106 | end is replaced only by a non-zero end, and name only by a non-empty name; id, start and metadata come from the fetched record |
| Services.UpdateTrackerAsWritten | backend/domain/tracker/services/tracker.go:90-114 | a failed fetch is returned before any write; otherwise the merged record is stored with the caller's version through the source's `Store` (`StoreAsWritten`), and store errors come back wrapped |
| Services.UpdateTracker | backend/domain/tracker/services/tracker.go:90-114 | corrected update over the corrected `Store`: whenever the commit succeeds it writes and returns exactly what the source does, errors included, except that a missing record gives `TrackerNotFound` and a stale version `WrongVersionProvided`; every error leaves the rows unchanged with the zero value, and a success is what the table now holds |
| Services.Translate | backend/domain/tracker/services/tracker.go:12-15 | maps an error that wraps the repository's not-found or wrong-version sentinel to the service's sentinel, and leaves every other error unchanged |
| Services.DeleteTracker | backend/domain/tracker/services/tracker.go:116-123 | performs exactly the repository's delete, and returns its error wrapped, never replaced or swallowed |
| ServiceProperties.GetTrackerZeroCheckUnreachable | backend/domain/tracker/services/tracker.go:62-64 | in a valid table `GetTracker` never returns `TrackerNotFound`, and succeeds exactly when `Get` does |
| ServiceProperties.CreateThenGet | backend/domain/tracker/services/tracker.go:79-88 | in a valid table a create returns an open interval with the given start and name, a fresh id, version 1 and created_at = updated_at, and `GetTracker` reads it back |
| ServiceProperties.UpdateOfUnreadableWritesNothing | backend/domain/tracker/services/tracker.go:91-98 | if `GetTracker` fails, the update returns that error and the table is unchanged |
| ServiceProperties.UpdateOfMissingWrapsNotFound | backend/domain/tracker/services/tracker.go:91-94 | updating a missing or deleted record returns the repository's not-found sentinel wrapped by `GetTracker` |
| ServiceProperties.WrongVersionProvidedNeverProduced | backend/domain/tracker/services/tracker.go:14 | the source's get, create and update never return the service's wrong-version sentinel |
| ServiceProperties.StaleUpdateIsWrapped | backend/domain/tracker/services/tracker.go:108-111 | a stale version returns the repository's `WrongVersion` wrapped, and nothing is written |
| ServiceProperties.FreshUpdateBumpsVersion | backend/domain/tracker/services/tracker.go:100-113 | an update with the current version keeps start, merges end and name, returns the old version plus 1, and `GetTracker` reads the result back |
| ServiceProperties.CreateReportsUncommittedRecord | backend/domain/tracker/services/tracker.go:79-88 | through the source's `Store`, a create whose commit fails returns a record without error, yet no row holds its id |
| ServiceProperties.UpdateReportsFailedCommit | backend/domain/tracker/services/tracker.go:108-111 | a matching update whose commit fails: the corrected service returns the wrapped driver error with the rows unchanged, the source's reports success |
| ServiceProperties.DeleteThenGet | backend/domain/tracker/services/tracker.go:116-123 | after a successful `DeleteTracker`, `GetTracker` fails with the wrapped not-found sentinel |
| ServiceProperties.StaleUpdateAnswers500 | backend/application/handlers/tracker.go:248-258 | through the source's service, a stale update reaches the handler's 500 branch, not 409 |
| ServiceProperties.MissingUpdateAnswers500 | backend/application/handlers/tracker.go:248-258 | through the source's service, an update of a missing record reaches 500, not 404 |
| ServiceProperties.StaleUpdateAnswers409 | backend/application/handlers/tracker.go:252-253 | through the corrected service, a stale update answers 409 and writes nothing |
| ServiceProperties.MissingUpdateAnswers404 | backend/application/handlers/tracker.go:249-250 | through the corrected service, an update of a missing record answers 404 and writes nothing |
| Handlers.FromDomain | backend/application/handlers/tracker.go:305-322 | end is null exactly when the record's end is zero, and otherwise equals it; id, start, name, created_at, updated_at and version are copied |
| Handlers.FromDomainForgetsOnlyDeleted | backend/application/handlers/tracker.go:305-322 | two records map to the same response exactly when they differ at most in the deleted flag |
| Handlers.FromDomainSlice | backend/application/handlers/tracker.go:324-334 | same length and order: element i is `FromDomain` of input i; an empty input gives an empty list |
| Handlers.UpdateStatus | backend/application/handlers/tracker.go:246-261 | 404 exactly for `TrackerNotFound`, 409 exactly for `WrongVersionProvided`, and 500 for every other error, by plain equality |
| Handlers.WrappedErrorsAnswer500 | backend/application/handlers/tracker.go:248-258 | any wrapped error falls to 500, whatever it wraps |
| Handlers.ListBounds | backend/application/handlers/tracker.go:102-125 | both query values empty gives zero bounds; otherwise both are parsed, and a parse failure answers 500 |
| Handlers.OneBoundAlone | backend/application/handlers/tracker.go:107-124 | when the parser rejects "", giving only one bound answers 500 |
| History.Run | backend/repositories/postgresql/tracker.go:69-105 | a run of stores yields one result per call and keeps a valid table valid |
| History.SuccessfulStoreOfExisting | backend/repositories/postgresql/tracker.go:83-91 | a successful store on an existing row used the row's version, and leaves the record and the row at the bumped version |
| History.StoreStep | backend/repositories/postgresql/tracker.go:83-91 | one corrected `Store` on a valid table: a success on record `id` bumps that row and reports the bumped version; any other outcome leaves the row alone |
| History.RowCountsHits | backend/repositories/postgresql/tracker.go:152-166 | after any run of the corrected `Store` from a valid table, a stored row's version is its starting version bumped once per successful store of it |
| History.SuccessfulUpdatesCountUp | backend/repositories/postgresql/tracker.go:152-166 | in any run of the corrected `Store` from a valid table, failures and other records included, the k-th successful store of a record reports its starting version bumped k times: no version is skipped or reported twice (with the source's `Store` see `StoreProperties.RetryAfterFailedCommitRepeatsVersion`) |
| Scenario.SeededIsValid | backend/repositories/postgresql/tracker_test.go:32-37 | the test's seeded table is valid |
| Scenario.CreateGetsThirdId | backend/repositories/postgresql/tracker_test.go:73-92 | a create on the seeded table returns id 3 and version 1 |
| Scenario.UpdateGetsVersionTwo | backend/repositories/postgresql/tracker_test.go:93-114 | updating record 1 at version 1 returns the new fields and version 2 |
| Scenario.StaleUpdateRejected | backend/repositories/postgresql/tracker_test.go:115-129 | updating record 1 with version 2 returns `WrongVersion` |
| Scenario.GetSeededRecord | backend/repositories/postgresql/tracker_test.go:241-256 | reading record 1 returns the seeded fields, version 1, not deleted |
| Scenario.DeleteSeededRecord | backend/repositories/postgresql/tracker_test.go:179-190 | deleting record 1 succeeds, and the record is then hidden from reads |

## Left out

- The repository's `List` and `scanMultipleRows`: `List` is commented out in the source, so no window filter or
  ordering exists to model. For the same reason the service's `ListTrackers` is left out: it only forwards to that
  `List`.
- Transactions, row locks and their contention are not modelled as concurrency. Calls run one after another, and
  a lock that cannot be taken is a `Faults.lock` driver error that leaves the table unchanged.
- Cancellation through `context.Context` is left out. It would surface as a driver error, which `Faults` already
  covers.
- Repository.Scan: the source scans into `deleted, version, createdAt, updatedAt` while every query returns
  `created_at, updated_at, deleted, version` in that order (backend/repositories/postgresql/tracker.go:182-186
  against :33, :143, :158). `database/sql` would refuse to put a timestamp into a `bool`, so as written every
  returned row would fail to scan. The model assumes the destinations line up with the columns.
- Repository.Insert: the table definition is not part of this model. The model assumes the column defaults
  `created_at = updated_at = NOW()`, `deleted = false` and `version = 1` for a fresh row.
- Repository.Update: every statement that returns a record names the columns `start` and `end`
  (backend/repositories/postgresql/tracker.go:33, 141-143, 156-158). `END` is a reserved word in PostgreSQL, and
  the test seeds columns named `started` and `ended` instead (backend/repositories/postgresql/tracker_test.go:34).
  As written, `Get`, `create` and `update` would therefore always end in a driver error. The model assumes the
  statements parse and address the real columns; the unparsable case is only the `Faults` driver-error case, and
  the lemmas that assume `StoreRuns` describe the statements as evidently intended.
- The wiring of the service to the repository: `*TrackerStore` has no `List`, and its `Get` and `Delete` take
  `int` where the service's `TrackerStore` interface expects `uint64`, so `application/api.go` does not compile
  as given. The model connects the service's calls to the repository's functions directly.
- pgx and `database/sql` scanning appear only as the abstract query outcomes of `Repository.RowResult`. The
  Postgres unique-violation code check appears only as the `PgUniqueViolation` outcome.
- Ids are unbounded naturals: the width of the id column and of Go's `uint64` is not modelled.
- `utils.StrToTime` (a thin wrapper over `time.Parse`) is the function parameter `parse` of `Handlers.ListBounds`.
- The rest of the HTTP handlers is left out: JSON encoding and decoding, `mux` variables, `strconv` parsing,
  logging, and writing the response. Also left out: the router and CORS set-up in `application/api.go`, the
  command-line bootstrapping under `cmd/`, and the whole React frontend. All of it is I/O or framework glue.
- Handlers.FromDomainSlice: Go's distinction between a nil slice and an empty one does not exist for Dafny
  sequences. The contract says an empty input gives an empty list, not that the list is non-nil.
- Repository.Insert: whether a driver failure of the INSERT has consumed a sequence value cannot be seen from the
  source; the model assumes it has.

## Findings

| source | as written | input that shows it | evidently intended | confidence | as-written member | corrected member |
|---|---|---|---|---|---|---|
| backend/repositories/postgresql/tracker.go:98-102 | `tx.Commit()`'s error is discarded; the following `if err != nil` tests the older, nil `err` | an update with a matching version whose commit fails: `Store` returns the record with the bumped version and no error, but the row keeps its old version | a failed commit is returned as an error | high, not executed | StoreProperties.CommitFailureReportsSuccess, StoreProperties.RetryAfterFailedCommitRepeatsVersion and ServiceProperties.CreateReportsUncommittedRecord (on Repository.StoreAsWritten) | Repository.Store, with StoreProperties.CommitFailureReported, ServiceProperties.UpdateReportsFailedCommit and History.SuccessfulUpdatesCountUp |
| backend/domain/tracker/services/tracker.go:91-93, 108-111 with backend/application/handlers/tracker.go:248-258 | the service returns every repository error wrapped with `%w` and never returns its own `ErrWrongVersion` or, in a valid table, `ErrTrackerNotFound`; the handler compares with `==` | an update with a stale version, or of an id with no live row: the handler answers 500 | 409 for a stale version and 404 for a missing record, as the handler's switch spells out | medium, not executed | ServiceProperties.StaleUpdateAnswers500 and ServiceProperties.MissingUpdateAnswers500 (on Services.UpdateTrackerAsWritten) | Services.UpdateTracker, with ServiceProperties.StaleUpdateAnswers409 and ServiceProperties.MissingUpdateAnswers404 |
