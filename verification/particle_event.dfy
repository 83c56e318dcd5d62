/**
 tarkka_particleIo.js: query for the current hour and, when it matches,
 publish an event carrying the first record and the seconds left of the
 requested duration. Login and publishing are not modelled.
 */
module ParticleEvent {
  import opened Common
  import opened Particle

  /** The wall-clock reading taken once at start-up. */
  datatype Clock = Clock(hours: nat, minutes: nat, seconds: nat)

  /** The event published to the device. */
  datatype Event = Event(name: string, hour: nat, value: real, durationSec: int)

  const DefaultDuration: int := 3600

  /**
   The duration minus the seconds already gone in this hour, or the full
   duration when that would be negative.
   */
  function Remaining(duration: int, minutes: nat, seconds: nat): (d: int)
    ensures d == duration || d + minutes * 60 + seconds == duration
    ensures duration - (minutes * 60 + seconds) >= 0 ==> d + minutes * 60 + seconds == duration
    ensures duration - (minutes * 60 + seconds) < 0 ==> d == duration
  {
    var left := duration - (minutes * 60 + seconds);
    if left < 0 then duration else left
  }

  /** A non-negative duration is never exceeded, and the result is never negative. */
  lemma RemainingBounded(duration: int, minutes: nat, seconds: nat)
    requires duration >= 0
    ensures 0 <= Remaining(duration, minutes, seconds) <= duration
  {
  }

  /**
   With the default hour-long duration and a real clock reading the event
   lasts between 1 and 3600 seconds and ends exactly at the next full hour.
   */
  lemma DefaultEndsOnTheHour(minutes: nat, seconds: nat)
    requires minutes <= 59 && seconds <= 59
    ensures 1 <= Remaining(DefaultDuration, minutes, seconds) <= 3600
    ensures minutes * 60 + seconds + Remaining(DefaultDuration, minutes, seconds) == 3600
  {
  }

  /**
   The script after argument and clock reads: `args` are the command-line
   arguments, `answer` is the query module and `parseInt` its integer
   parser for the optional eighth argument.
   */
  function Run(args: seq<string>, clock: Clock, answer: QueryCall -> Reply, parseInt: string -> int): (r: Outcome<Event>)
    ensures |args| < 7 ==> r == Failed(TooFewArguments) && ExitStatus(r) == 1
    ensures |args| >= 7 && ParseMode(args[2]).None? ==> r == Failed(UnknownMode(args[2]))
    ensures |args| >= 7 && ParseMode(args[2]).Some? ==>
      var reply := answer(QueryCall(ParseMode(args[2]).value, args[1], Some(args[3]), AtHour(clock.hours)));
      && (r.Failed? <==> !Answered(reply))
      && (r.Failed? ==> r.reason == FailureOf(reply))
      && (ExitStatus(r) == 0 <==> Answered(reply))
      && (r.NoMatch? <==> Answered(reply) && reply.values.value == [])
      && (r.Act? ==>
            && r.action.name == args[6]
            && r.action.hour == reply.values.value[0].hour
            && r.action.value == reply.values.value[0].value)
    ensures r.Act? ==>
      var duration := if |args| > 7 then parseInt(args[7]) else DefaultDuration;
      r.action.durationSec == Remaining(duration, clock.minutes, clock.seconds)
  {
    if |args| < 7 then Failed(TooFewArguments)
    else
      var duration := if |args| > 7 then parseInt(args[7]) else DefaultDuration;
      match PlanQuery(args[2], args[1], Some(args[3]), AtHour(clock.hours))
      case Fail(f) => Failed(f)
      case Ok(call) =>
        match Classify(answer(call))
        case Failed(f) => Failed(f)
        case NoMatch => NoMatch
        case Act(first) =>
          Act(Event(args[6], first.hour, first.value, Remaining(duration, clock.minutes, clock.seconds)))
  }

  /**
   Every mode queries the current hour: two query modules that agree on
   calls for the clock's hour give the same outcome.
   */
  lemma OnlyCurrentHourIsQueried(args: seq<string>, clock: Clock, a1: QueryCall -> Reply, a2: QueryCall -> Reply, parseInt: string -> int)
    requires forall c: QueryCall :: c.hour == AtHour(clock.hours) ==> a1(c) == a2(c)
    ensures Run(args, clock, a1, parseInt) == Run(args, clock, a2, parseInt)
  {
  }
}
