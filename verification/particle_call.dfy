/**
 tarkka_particleIoCallFunction.js: query for an hour (by default the
 current one) and, when it matches, call a device function with either
 the first record formatted as `value=<v>,hour=<h>` or a fixed parameter
 string. Login, device lookup and the remote call are not modelled.
 */
module ParticleCall {
  import opened Common
  import opened Particle

  /** The device function call the script makes. */
  datatype FunctionCall = FunctionCall(device: string, name: string, params: string)

  /** The `functionParams` value that asks for the query result as parameter. */
  const QueryKeyword: string := "query"

  /** The hour argument when the ninth argument is absent. */
  const CurrentHour: string := "current"

  /**
   The parameter string: the first record as `value=<v>,hour=<h>` when
   `functionParams` is absent or "query", else `functionParams` verbatim.
   `show` is the host's number-to-string conversion.
   */
  function FinalParams(functionParams: Option<string>, first: HourValue, show: real -> string): (p: string)
    ensures functionParams.Some? && functionParams.value != QueryKeyword ==> p == functionParams.value
    ensures functionParams.None? || functionParams.value == QueryKeyword ==>
      && |p| >= 6 && p[..6] == "value="
      && (',' !in show(first.value) ==> ParseQueryParams(p) == Some((show(first.value), show(first.hour as real))))
  {
    if functionParams.None? || functionParams.value == QueryKeyword then
      QueryParamsRoundTrip(show(first.value), show(first.hour as real));
      "value=" + show(first.value) + ",hour=" + show(first.hour as real)
    else functionParams.value
  }

  /** Splits `s` at the first occurrence of `c`. */
  function SplitAtFirst(s: string, c: char): (r: Option<(string, string)>)
    ensures r.Some? ==> c !in r.value.0 && s == r.value.0 + [c] + r.value.1
    ensures r.None? <==> c !in s
  {
    if s == [] then None
    else if s[0] == c then Some(([], s[1..]))
    else
      match SplitAtFirst(s[1..], c)
      case None => None
      case Some((a, b)) => Some(([s[0]] + a, b))
  }

  /** Reads a `value=<v>,hour=<h>` parameter string back into its two texts. */
  function ParseQueryParams(s: string): Option<(string, string)> {
    if |s| < 6 || s[..6] != "value=" then None
    else
      match SplitAtFirst(s[6..], ',')
      case None => None
      case Some((v, rest)) =>
        if |rest| < 5 || rest[..5] != "hour=" then None else Some((v, rest[5..]))
  }

  lemma {:induction false} SplitAtFirstOf(a: string, c: char, b: string)
    requires c !in a
    ensures SplitAtFirst(a + [c] + b, c) == Some((a, b))
  {
    if a != [] {
      assert (a + [c] + b)[0] == a[0] != c;
      assert (a + [c] + b)[1..] == a[1..] + [c] + b;
      SplitAtFirstOf(a[1..], c, b);
      assert [a[0]] + a[1..] == a;
    }
  }

  /** A value text without a comma is recovered, with the hour text, from the parameter string. */
  lemma QueryParamsRoundTrip(v: string, h: string)
    ensures ',' !in v ==> ParseQueryParams("value=" + v + ",hour=" + h) == Some((v, h))
  {
    if ',' !in v {
      var s := "value=" + v + ",hour=" + h;
      assert s[..6] == "value=";
      assert s[6..] == v + [','] + ("hour=" + h);
      SplitAtFirstOf(v, ',', "hour=" + h);
      assert ("hour=" + h)[..5] == "hour=";
      assert ("hour=" + h)[5..] == h;
    }
  }

  /**
   The script after argument parsing: `args` are the command-line
   arguments, `answer` is the query module, `show` the number-to-string
   conversion.
   */
  function Run(args: seq<string>, answer: QueryCall -> Reply, show: real -> string): (r: Outcome<FunctionCall>)
    ensures |args| < 7 ==> r == Failed(TooFewArguments) && ExitStatus(r) == 1
    ensures |args| >= 7 && ParseMode(args[6]).None? ==> r == Failed(UnknownMode(args[6]))
    ensures |args| >= 7 && ParseMode(args[6]).Some? ==>
      var hour := if |args| > 8 then args[8] else "current";
      var param := if |args| > 7 then Some(args[7]) else None;
      var reply := answer(QueryCall(ParseMode(args[6]).value, args[5], param, Named(hour)));
      && (r.Failed? <==> !Answered(reply))
      && (r.Failed? ==> r.reason == FailureOf(reply))
      && (ExitStatus(r) == 0 <==> Answered(reply))
      && (r.NoMatch? <==> Answered(reply) && reply.values.value == [])
      && (r.Act? ==>
            && r.action.device == args[1] && r.action.name == args[2]
            && r.action.params == FinalParams(Some(args[3]), reply.values.value[0], show))
  {
    if |args| < 7 then Failed(TooFewArguments)
    else
      var param := if |args| > 7 then Some(args[7]) else None;
      var hour := if |args| > 8 then args[8] else CurrentHour;
      match PlanQuery(args[6], args[5], param, Named(hour))
      case Fail(f) => Failed(f)
      case Ok(call) =>
        match Classify(answer(call))
        case Failed(f) => Failed(f)
        case NoMatch => NoMatch
        case Act(first) => Act(FunctionCall(args[1], args[2], FinalParams(Some(args[3]), first, show)))
  }

  /**
   Only the requested hour is queried: two query modules that agree on
   calls for the ninth argument (or "current" when it is absent) give
   the same outcome.
   */
  lemma OnlyRequestedHourIsQueried(args: seq<string>, a1: QueryCall -> Reply, a2: QueryCall -> Reply, show: real -> string)
    requires forall c: QueryCall :: c.hour == Named(if |args| > 8 then args[8] else CurrentHour) ==> a1(c) == a2(c)
    ensures Run(args, a1, show) == Run(args, a2, show)
  {
  }
}
