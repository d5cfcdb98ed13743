/**
 The pure parts of the HTTP handlers (backend/application/handlers/tracker.go):
 the response mapping, the update handler's error-to-status switch and the
 list handler's choice of time bounds.
 */
module Handlers {
  import opened Wrappers
  import opened Errors
  import opened Domain
  import opened Models

  /** `TimeTrackerResponse`; `end` is a nullable pointer, null while the interval is open. */
  datatype Response = Response(
    id: nat,
    start: Time,
    end: Option<Time>,
    name: string,
    createdAt: Time,
    updatedAt: Time,
    version: Uint32
  )

  /** `fromDomain`. */
  function FromDomain(t: TimeTracker): (r: Response)
    ensures r.end.None? <==> IsZeroTime(t.end)
    ensures r.end.Some? ==> r.end.value == t.end
    ensures r.id == t.id && r.start == t.start && r.name == t.name
    ensures r.createdAt == GetCreatedAt(t.meta) && r.updatedAt == GetUpdatedAt(t.meta) && r.version == GetVersion(t.meta)
  {
    var end := if !IsZeroTime(t.end) then Some(t.end) else None;
    Response(t.id, t.start, end, t.name, GetCreatedAt(t.meta), GetUpdatedAt(t.meta), GetVersion(t.meta))
  }

  /** Two records give the same response exactly when they differ at most in the deleted flag. */
  lemma FromDomainForgetsOnlyDeleted(t1: TimeTracker, t2: TimeTracker)
    ensures FromDomain(t1) == FromDomain(t2) <==> t1.(meta := t1.meta.(deleted := false)) == t2.(meta := t2.meta.(deleted := false))
  {
    var r1, r2 := FromDomain(t1), FromDomain(t2);
    if r1 == r2 {
      assert t1.end == t2.end by {
        if IsZeroTime(t1.end) {
          assert r2.end.None?;
        } else {
          assert r1.end.value == t2.end;
        }
      }
    }
  }

  /** `fromDomainSlice`: the responses for a list of records, in order; an empty list gives an empty list. */
  method FromDomainSlice(trackers: seq<TimeTracker>) returns (responses: seq<Response>)
    ensures |responses| == |trackers|
    ensures forall i :: 0 <= i < |trackers| ==> responses[i] == FromDomain(trackers[i])
  {
    responses := [];
    var k := 0;
    while k < |trackers|
      invariant 0 <= k <= |trackers|
      invariant |responses| == k
      invariant forall i :: 0 <= i < k ==> responses[i] == FromDomain(trackers[i])
    {
      responses := responses + [FromDomain(trackers[k])];
      k := k + 1;
    }
  }

  const StatusNotFound: int := 404
  const StatusConflict: int := 409
  const StatusInternalServerError: int := 500

  /** The `UpdateTracker` handler's switch, which compares errors with plain equality. */
  function UpdateStatus(err: Error): (status: int)
    ensures status == StatusNotFound <==> err == TrackerNotFound
    ensures status == StatusConflict <==> err == WrongVersionProvided
    ensures status == StatusInternalServerError <==> err != TrackerNotFound && err != WrongVersionProvided
  {
    match err
    case TrackerNotFound => StatusNotFound
    case WrongVersionProvided => StatusConflict
    case _ => StatusInternalServerError
  }

  /** A wrapped error never reaches the 404 or 409 branch, whatever it wraps. */
  lemma WrappedErrorsAnswer500(cause: Error, context: string)
    ensures UpdateStatus(Wrap(cause, context)) == StatusInternalServerError
  {
  }

  /** What `ListTrackers` asks the service for, or the status it answers with instead. */
  datatype ListQuery = Window(start: Time, end: Time) | Reject(status: int)

  /**
   `ListTrackers`'s bounds: both query values empty means zero bounds;
   otherwise both are parsed (`parse` stands for `utils.StrToTime`) and a
   parse failure answers 500.
   */
  function ListBounds(startDate: string, endDate: string, parse: string -> Option<Time>): (q: ListQuery)
    ensures startDate == "" && endDate == "" ==> q == Window(ZeroTime, ZeroTime)
    ensures !(startDate == "" && endDate == "") ==>
      (if parse(startDate).Some? && parse(endDate).Some?
       then q == Window(parse(startDate).value, parse(endDate).value)
       else q == Reject(StatusInternalServerError))
  {
    if startDate == "" && endDate == "" then Window(ZeroTime, ZeroTime)
    else
      match (parse(startDate), parse(endDate))
      case (Some(s), Some(e)) => Window(s, e)
      case _ => Reject(StatusInternalServerError)
  }

  /** When the parser rejects the empty string, giving only one bound answers 500. */
  lemma OneBoundAlone(startDate: string, endDate: string, parse: string -> Option<Time>)
    requires parse("").None?
    requires (startDate == "") != (endDate == "")
    ensures ListBounds(startDate, endDate, parse) == Reject(StatusInternalServerError)
  {
  }
}
