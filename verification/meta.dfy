/**
 Bookkeeping metadata shared by domain records (backend/domain/meta.go).

 `Meta`'s fields are private in the source and read only through value-receiver
 getters; `HydrateMeta` is the one mutator. As a Dafny value type, getters
 cannot change a `Meta` and `HydrateMeta` returns the overwritten value.
 */
module Domain {

  /** Timestamps are opaque; 0 stands for Go's zero `time.Time`. */
  type Time = int

  const ZeroTime: Time := 0

  /** `time.Time.IsZero`. */
  predicate IsZeroTime(t: Time) {
    t == ZeroTime
  }

  const MaxUint32: int := 0xFFFF_FFFF

  /** Go's `uint32`. */
  type Uint32 = x: int | 0 <= x <= MaxUint32

  datatype Meta = Meta(deleted: bool, createdAt: Time, updatedAt: Time, version: Uint32)

  function GetDeleted(m: Meta): bool {
    m.deleted
  }

  function GetCreatedAt(m: Meta): Time {
    m.createdAt
  }

  function GetUpdatedAt(m: Meta): Time {
    m.updatedAt
  }

  function GetVersion(m: Meta): Uint32 {
    m.version
  }

  /** Metadata of a record that has never been stored. */
  function NewMeta(): (m: Meta)
    ensures !GetDeleted(m)
    ensures IsZeroTime(GetCreatedAt(m)) && IsZeroTime(GetUpdatedAt(m))
    ensures GetVersion(m) == 0
  {
    Meta(false, ZeroTime, ZeroTime, 0)
  }

  /** Overwrites all four fields; the getters then read back exactly what was given. */
  function HydrateMeta(m: Meta, deleted: bool, createdAt: Time, updatedAt: Time, version: Uint32): (r: Meta)
    ensures GetDeleted(r) == deleted
    ensures GetCreatedAt(r) == createdAt
    ensures GetUpdatedAt(r) == updatedAt
    ensures GetVersion(r) == version
  {
    m.(deleted := deleted, createdAt := createdAt, updatedAt := updatedAt, version := version)
  }

  /** The prior state of the receiver never shows through a hydration. */
  lemma HydrateIgnoresPriorState(m1: Meta, m2: Meta, deleted: bool, createdAt: Time, updatedAt: Time, version: Uint32)
    ensures HydrateMeta(m1, deleted, createdAt, updatedAt, version) == HydrateMeta(m2, deleted, createdAt, updatedAt, version)
  {
  }

  /** The four getters expose all of `Meta`: two values agree on every getter exactly when they are equal. */
  lemma GettersDetermineMeta(m1: Meta, m2: Meta)
    ensures GetDeleted(m1) == GetDeleted(m2) && GetCreatedAt(m1) == GetCreatedAt(m2)
         && GetUpdatedAt(m1) == GetUpdatedAt(m2) && GetVersion(m1) == GetVersion(m2)
        <==> m1 == m2
  {
  }

  /** Hydrating with what the getters read back gives the same metadata. */
  lemma HydrateFromGetters(m: Meta, n: Meta)
    ensures HydrateMeta(n, GetDeleted(m), GetCreatedAt(m), GetUpdatedAt(m), GetVersion(m)) == m
  {
  }
}
