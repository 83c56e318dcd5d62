/**
 What the two particle.io callers share: the query call they make, the
 reply they get back, and how they classify it. The query module they
 load (`queryHighest`, `queryLowest`, `queryOver`, `queryUnder`) is not
 part of this model; its reply is an input.
 */
module Particle {
  import opened Common

  /** The hour a caller asks about: the clock's hour, or the raw `modeHour` argument. */
  datatype HourArg = AtHour(hour: nat) | Named(text: string)

  /**
   One call into the query module: mode, data file, raw mode parameter,
   hour. The callers' `parseInt`/`parseFloat` of the parameter is folded
   into the query module the model takes as input.
   */
  datatype QueryCall = QueryCall(mode: Mode, file: string, param: Option<string>, hour: HourArg)

  /**
   The query module's answer: `null`; an exception thrown by the query
   function; or an object with an optional `error` and, possibly missing,
   its `values` array.
   */
  datatype Reply = Null | Threw | Reply(error: Option<string>, values: Option<seq<HourValue>>)

  /** A reply the caller gets past the checks for null, error and a missing `values` with. */
  predicate Answered(reply: Reply) {
    reply.Reply? && reply.error.None? && reply.values.Some?
  }

  /**
   The reason a caller fails on a reply it cannot use: null, the reply's
   error, or an internal error when the query threw or `values` is missing.
   */
  function FailureOf(reply: Reply): Failure {
    if reply.Null? then NoData
    else if reply.Reply? && reply.error.Some? then QueryFailed(reply.error.value)
    else InternalError
  }

  /**
   How a caller run ends before any network work: a failure (exit 1),
   success with nothing to do because the hour did not match (exit 0),
   or an action built from the first reported record.
   */
  datatype Outcome<+A> = Failed(reason: Failure) | NoMatch | Act(action: A)

  /** The process exit status the outcome leads to (the network part is not modelled). */
  function ExitStatus<A>(r: Outcome<A>): (status: int)
    ensures status == 0 || status == 1
    ensures status == 1 <==> r.Failed?
  {
    if r.Failed? then 1 else 0
  }

  /** Selects the query function for the mode string; an unknown mode fails before any query. */
  function PlanQuery(modeArg: string, file: string, param: Option<string>, hour: HourArg): (r: Result<QueryCall>)
    ensures r.Fail? <==> ParseMode(modeArg).None?
    ensures r.Fail? ==> r.failure == UnknownMode(modeArg)
    ensures r.Ok? ==> Lower(modeArg) == Name(r.value.mode) && r.value.hour == hour
    ensures r.Ok? ==> r.value.file == file && r.value.param == param
  {
    match ParseMode(modeArg)
    case None => Fail(UnknownMode(modeArg))
    case Some(m) => Ok(QueryCall(m, file, param, hour))
  }

  /**
   A null reply, a thrown exception, a reply carrying an error or one
   without `values` is a failure; an empty result means the hour did not
   match; otherwise the first record is acted on.
   */
  function Classify(reply: Reply): (r: Outcome<HourValue>)
    ensures r.Failed? <==> !Answered(reply)
    ensures r.Failed? && reply.Null? ==> r.reason == NoData
    ensures r.Failed? && reply.Reply? && reply.error.Some? ==> r.reason == QueryFailed(reply.error.value)
    ensures r.Failed? && (reply.Threw? || (reply.Reply? && reply.error.None?)) ==> r.reason == InternalError
    ensures r.NoMatch? <==> Answered(reply) && reply.values.value == []
    ensures r.Act? ==> Answered(reply) && reply.values.value != [] && r.action == reply.values.value[0]
  {
    match reply
    case Null => Failed(NoData)
    case Threw => Failed(InternalError)
    case Reply(error, values) =>
      if error.Some? then Failed(QueryFailed(error.value))
      else if values.None? then Failed(InternalError)
      else if values.value == [] then NoMatch
      else Act(values.value[0])
  }
}
