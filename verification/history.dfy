/**
 Sequences of calls of the corrected `Store`: each successful store of one
 record moves its version up by exactly one, so no version is skipped or
 reported twice. (With the source's `Store`, a retry after a failed commit
 reports the same version twice; see `RetryAfterFailedCommitRepeatsVersion`.)
 */
module History {
  import opened Errors
  import opened Domain
  import opened Models
  import opened Repository

  /** One call of `Store` with everything it depends on. */
  datatype StoreCall = StoreCall(tracker: TimeTracker, version: Uint32, now: Time, faults: Faults)

  /** Runs the calls one after another, each on the table the previous one left. */
  function Run(db: Db, calls: seq<StoreCall>): (e: Effect<seq<Result<TimeTracker>>>)
    ensures |e.out| == |calls|
    ensures Valid(db) ==> Valid(e.db)
    decreases |calls|
  {
    if calls == [] then Effect([], db)
    else
      var first := Store(db, calls[0].tracker, calls[0].version, calls[0].now, calls[0].faults);
      var rest := Run(first.db, calls[1..]);
      Effect([first.out] + rest.out, rest.db)
  }

  /** A successful `Store` on an existing row was an update with the row's own version. */
  lemma SuccessfulStoreOfExisting(db: Db, t: TimeTracker, version: Uint32, now: Time, faults: Faults)
    requires CurrentVersion(db, t.id) != 0
    requires Store(db, t, version, now, faults).out.Ok()
    ensures var e := Store(db, t, version, now, faults);
      && version == db.rows[t.id].version
      && e.out.value.id == t.id
      && e.out.value.meta.version == Bump(version)
      && t.id in e.db.rows && e.db.rows[t.id].version == Bump(version)
  {
  }

  /** A successful store whose record is `id`. */
  predicate Hit(r: Result<TimeTracker>, id: nat) {
    r.Ok() && r.value.id == id
  }

  /** The number of successful stores of the record `id` among `out`. */
  function Hits(out: seq<Result<TimeTracker>>, id: nat): nat {
    if out == [] then 0 else (if Hit(out[0], id) then 1 else 0) + Hits(out[1..], id)
  }

  /** Counting the hits of a prefix that starts with `x`. */
  lemma HitsOfPrefix(x: Result<TimeTracker>, rest: seq<Result<TimeTracker>>, id: nat, i: nat)
    requires 0 < i <= |rest| + 1
    ensures Hits(([x] + rest)[..i], id) == (if Hit(x, id) then 1 else 0) + Hits(rest[..i - 1], id)
  {
    assert ([x] + rest)[..i][1..] == rest[..i - 1];
  }

  /** `v` after `n` uint32 increments. */
  function BumpN(v: Uint32, n: nat): (r: Uint32)
    ensures v + n <= MaxUint32 ==> r == v + n
    ensures v + n == MaxUint32 + 1 ==> r == 0
  {
    if n == 0 then v else Bump(BumpN(v, n - 1))
  }

  /** Bumping first and then `n` times is bumping `n + 1` times. */
  lemma {:induction false} BumpThenN(v: Uint32, n: nat)
    ensures BumpN(Bump(v), n) == BumpN(v, n + 1)
  {
    if n > 0 {
      BumpThenN(v, n - 1);
    }
  }

  /**
   One store on a valid table: a successful store of `id` bumps that row's
   version and reports the bumped version; any other outcome, including a
   store of another record and an insert, leaves the row alone.
   */
  lemma StoreStep(db: Db, c: StoreCall, id: nat)
    requires Valid(db) && id in db.rows
    ensures var e := Store(db, c.tracker, c.version, c.now, c.faults);
      && Valid(e.db)
      && id in e.db.rows
      && (Hit(e.out, id) ==> e.out.value.meta.version == e.db.rows[id].version == Bump(db.rows[id].version))
      && (!Hit(e.out, id) ==> e.db.rows[id] == db.rows[id])
  {
    assert db.nextId !in db.rows;
  }

  /** The row of `id` ends at its starting version bumped once per successful store of it. */
  lemma {:induction false} RowCountsHits(db: Db, id: nat, calls: seq<StoreCall>)
    requires Valid(db) && id in db.rows
    ensures var e := Run(db, calls);
      && id in e.db.rows
      && e.db.rows[id].version == BumpN(db.rows[id].version, Hits(e.out, id))
    decreases |calls|
  {
    if calls != [] {
      var c := calls[0];
      var first := Store(db, c.tracker, c.version, c.now, c.faults);
      var rest := Run(first.db, calls[1..]);
      var out := Run(db, calls).out;
      assert out == [first.out] + rest.out;
      StoreStep(db, c, id);
      RowCountsHits(first.db, id, calls[1..]);
      HitsOfPrefix(first.out, rest.out, id, |out|);
      assert out[..|out|] == out;
      if Hit(first.out, id) {
        BumpThenN(db.rows[id].version, Hits(rest.out, id));
      }
    }
  }

  /**
   In any run of the corrected `Store` from a valid table, whatever fails and
   whichever other records it touches, the successful stores of a stored
   record `id` report consecutive versions: the k-th reports the starting
   version bumped k times, so no version is skipped or reported twice.
   */
  lemma {:induction false} SuccessfulUpdatesCountUp(db: Db, id: nat, calls: seq<StoreCall>)
    requires Valid(db) && id in db.rows
    ensures forall i :: 0 <= i < |calls| && Hit(Run(db, calls).out[i], id) ==>
      Run(db, calls).out[i].value.meta.version == BumpN(db.rows[id].version, Hits(Run(db, calls).out[..i + 1], id))
    decreases |calls|
  {
    if calls != [] {
      var c := calls[0];
      var first := Store(db, c.tracker, c.version, c.now, c.faults);
      var rest := Run(first.db, calls[1..]);
      var out := Run(db, calls).out;
      assert out == [first.out] + rest.out;
      StoreStep(db, c, id);
      SuccessfulUpdatesCountUp(first.db, id, calls[1..]);
      var v0 := db.rows[id].version;
      forall i | 0 <= i < |calls| && Hit(out[i], id)
        ensures out[i].value.meta.version == BumpN(v0, Hits(out[..i + 1], id))
      {
        HitsOfPrefix(first.out, rest.out, id, i + 1);
        if i == 0 {
          assert BumpN(v0, 1) == Bump(v0);
        } else {
          assert out[i] == rest.out[i - 1];
          assert rest.out[..i - 1 + 1] == rest.out[..i];
          var k := Hits(rest.out[..i], id);
          if Hit(first.out, id) {
            BumpThenN(v0, k);
          } else {
            assert first.db.rows[id].version == v0;
          }
        }
      }
    }
  }
}
