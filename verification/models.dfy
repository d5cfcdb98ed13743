/** The tracked interval (backend/domain/tracker/models/tracker.go). */
module Models {
  import opened Domain

  datatype TimeTracker = TimeTracker(id: nat, start: Time, end: Time, name: string, meta: Meta)

  /** A record with the given fields and fresh, never-stored metadata. */
  function NewTimeTracker(id: nat, start: Time, end: Time, name: string): (t: TimeTracker)
    ensures t.id == id && t.start == start && t.end == end && t.name == name
    ensures t.meta == NewMeta()
    ensures IsZero(t) <==> id == 0 && IsZeroTime(start) && IsZeroTime(end) && name == ""
  {
    TimeTracker(id, start, end, name, NewMeta())
  }

  /** No id, no start, no end and no name; the metadata is not looked at. */
  predicate IsZero(t: TimeTracker) {
    t.id == 0 && IsZeroTime(t.start) && IsZeroTime(t.end) && t.name == ""
  }

  /** Go's zero value `models.TimeTracker{}`, returned beside every error. */
  const Empty: TimeTracker := TimeTracker(0, ZeroTime, ZeroTime, "", Meta(false, ZeroTime, ZeroTime, 0))

  lemma EmptyIsZero()
    ensures IsZero(Empty)
    ensures Empty == NewTimeTracker(0, ZeroTime, ZeroTime, "")
  {
  }

  /** `IsZero` agrees with "equal to the zero value once the metadata is ignored". */
  lemma IsZeroMeansEmptyButMeta(t: TimeTracker)
    ensures IsZero(t) <==> t.(meta := Empty.meta) == Empty
  {
  }

  /** Hydrating the metadata never changes `IsZero`. */
  lemma IsZeroIgnoresMeta(t: TimeTracker, deleted: bool, createdAt: Time, updatedAt: Time, version: Uint32)
    ensures IsZero(t.(meta := HydrateMeta(t.meta, deleted, createdAt, updatedAt, version))) == IsZero(t)
  {
  }
}
