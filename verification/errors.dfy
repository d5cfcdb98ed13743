/**
 Error values of the tracker backend.

 Go errors are compared either with plain `==` (the HTTP handler's switch) or
 through the wrapping chain built by `fmt.Errorf("%w ...", err)`. The model
 keeps the sentinels of the repository and of the service as separate
 constructors and makes wrapping an explicit constructor, so that both kinds
 of comparison can be stated.
 */
module Errors {
  import opened Wrappers

  /** Opaque code of an error raised by database/sql or by the pgx driver. */
  type DbError = nat

  datatype Error =
    /** Repository sentinel "wrong version". */
    | WrongVersion
    /** Repository sentinel "unique constraint violation". */
    | UniqueViolation
    /** Repository sentinel for an empty result set ("user not found"). */
    | TimeTrackerNotFound
    /** Service sentinel "tracker not found". */
    | TrackerNotFound
    /** Service sentinel "wrong version provided". */
    | WrongVersionProvided
    /** Any other driver error, passed through unchanged. */
    | Driver(code: DbError)
    /** `fmt.Errorf("%w <context>", cause)`. */
    | Wrapped(cause: Error, context: string)

  /** A Go `(T, error)` pair: `value` is what the callee returned beside `err`. */
  datatype Result<T> = Result(value: T, err: Option<Error>) {
    predicate Ok() {
      err.None?
    }
  }

  /** An error that wraps nothing: a sentinel or a driver error. */
  predicate IsUnwrapped(e: Error) {
    !e.Wrapped?
  }

  /** `fmt.Errorf("%w <context>", cause)`. */
  function Wrap(cause: Error, context: string): (e: Error)
    ensures e != cause
    ensures forall s :: IsUnwrapped(s) ==> e != s
    ensures Is(e, cause)
  {
    Wrapped(cause, context)
  }

  /** `errors.Is`: the target appears somewhere on the chain of causes. */
  predicate Is(e: Error, target: Error)
    decreases e
  {
    e == target || (e.Wrapped? && Is(e.cause, target))
  }

  /** The innermost error of a wrapping chain. */
  function Root(e: Error): (r: Error)
    ensures IsUnwrapped(r)
    ensures Is(e, r)
    decreases e
  {
    if e.Wrapped? then Root(e.cause) else e
  }

  /** For an unwrapped target, `errors.Is` holds exactly when the chain ends in it. */
  lemma {:induction false} IsUnwrappedIffRoot(e: Error, target: Error)
    requires IsUnwrapped(target)
    ensures Is(e, target) <==> Root(e) == target
    decreases e
  {
    if e.Wrapped? {
      assert e != target;
      IsUnwrappedIffRoot(e.cause, target);
    }
  }
}
