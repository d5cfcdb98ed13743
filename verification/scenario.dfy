/**
 The repository's integration test replayed on the model: two seeded rows at
 version 1 with the sequence at 3, then a create, an update, a stale update,
 a read and a delete. Timestamps are seconds since the Unix epoch; the
 value 0 is reserved for Go's zero `time.Time`, which none of them is.
 */
module Scenario {
  import opened Wrappers
  import opened Errors
  import opened Domain
  import opened Models
  import opened Repository

  const May15: Time := 1589500800
  const May15Ten: Time := 1589536800
  const May16: Time := 1589587200
  const May16Ten: Time := 1589623200
  const Jan1: Time := 1577836800
  const Feb1: Time := 1580515200
  /** The frozen clock of the test, 2021-05-01 01:00 UTC. */
  const Now: Time := 1619830800

  const Seeded: Db := Db(
    map[
      1 := Row(May15, May15Ten, "test_time_tracker_1", Jan1 + 1, Jan1, false, 1),
      2 := Row(May16, May16Ten, "test_time_tracker_2", Feb1 + 1, Jan1, false, 1)
    ],
    3)

  lemma SeededIsValid()
    ensures Valid(Seeded)
  {
  }

  /** Creating: the new record gets id 3 and version 1. */
  lemma CreateGetsThirdId()
    ensures var t := TimeTracker(0, Now, ZeroTime, "test_tracker_3", NewMeta());
      var e := Store(Seeded, t, 0, Now, NoFaults);
      && e.out.Ok()
      && e.out.value.id == 3
      && e.out.value.name == "test_tracker_3" && e.out.value.start == Now && e.out.value.end == ZeroTime
      && GetVersion(e.out.value.meta) == 1
  {
  }

  /** Updating record 1 with its version 1 yields version 2. */
  lemma UpdateGetsVersionTwo()
    ensures var meta := HydrateMeta(NewMeta(), false, Now, Now, 1);
      var t := TimeTracker(1, Now, Now + 3600, "test_tracker_3", meta);
      var e := Store(Seeded, t, 1, Now, NoFaults);
      && e.out.Ok()
      && e.out.value.id == 1
      && e.out.value.start == Now && e.out.value.end == Now + 3600 && e.out.value.name == "test_tracker_3"
      && GetVersion(e.out.value.meta) == 2
  {
  }

  /** Updating record 1 claiming version 2 is rejected. */
  lemma StaleUpdateRejected()
    ensures var meta := HydrateMeta(NewMeta(), false, Now, Now, 2);
      var t := TimeTracker(1, Now, Now + 3600, "test_tracker_3", meta);
      Store(Seeded, t, 2, Now, NoFaults).out.err == Some(WrongVersion)
  {
  }

  /** Reading record 1 returns the seeded row, not deleted, at version 1. */
  lemma GetSeededRecord()
    ensures var r := Get(Seeded, 1, None);
      && r.Ok()
      && r.value.id == 1 && r.value.start == May15 && r.value.end == May15Ten
      && r.value.name == "test_time_tracker_1"
      && GetVersion(r.value.meta) == 1 && !GetDeleted(r.value.meta)
  {
  }

  /** Deleting record 1 succeeds and hides it from reads. */
  lemma DeleteSeededRecord()
    ensures var d := Delete(Seeded, 1, Now, None);
      && d.out.None?
      && Get(d.db, 1, None).err == Some(TimeTrackerNotFound)
  {
  }
}
