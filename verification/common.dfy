/**
 Shared vocabulary of the Tarkka scripts: the stored price file, the
 (hour, value) records every query produces, the two ranking directions,
 the query modes and the failure reasons that end a script with exit
 status 1.
 */
module Common {

  datatype Option<+T> = None | Some(value: T) {
    function GetOr(default: T): T {
      match this
      case Some(v) => v
      case None => default
    }
  }

  /** Why a script gives up (every one of these ends the process with status 1). */
  datatype Failure =
    | TooFewArguments      // usage text printed
    | StaleData            // the file's `time` is before today's midnight
    | UnknownMode(mode: string)
    | NoData               // the query module returned null
    | QueryFailed(error: string)
    | InternalError        // an exception reached a caller's catch block

  datatype Result<+T> = Ok(value: T) | Fail(failure: Failure)

  /** The parsed contents of a fetch result file: `{time, data}`. */
  datatype PriceFile = PriceFile(time: int, data: seq<real>)

  /** One working-set element: `hour` is the index into the price array. */
  datatype HourValue = HourValue(hour: nat, value: real)

  /** What tarkka_highest.js, tarkka_lowest.js and tarkka_over.js print: `{value, unit, hours}`. */
  datatype Report = Report(value: real, unit: string, hours: seq<nat>)

  /** The unit label every result carries. */
  const Unit: string := "c/kWh"

  /** A file is stale when its timestamp lies before today's midnight (both in ms). */
  predicate IsStale(file: PriceFile, midnight: int) {
    file.time < midnight
  }

  /**
   The sense in which one price is better than another: `Descending` ranks
   high prices first (highest, over), `Ascending` ranks low prices first
   (lowest, under).
   */
  datatype Order = Descending | Ascending

  /** `a` is strictly more extreme than `b` in direction `o`. */
  predicate Beats(o: Order, a: real, b: real) {
    match o
    case Descending => a > b
    case Ascending => a < b
  }

  /** `a` is at least as extreme as `b` in direction `o`. */
  predicate Reaches(o: Order, a: real, b: real) {
    match o
    case Descending => a >= b
    case Ascending => a <= b
  }

  /** The four query modes of tarkka_query.js and the particle.io callers. */
  datatype Mode = Highest | Lowest | Over | Under

  function Name(m: Mode): string {
    match m
    case Highest => "highest"
    case Lowest => "lowest"
    case Over => "over"
    case Under => "under"
  }

  /** highest and over rank descending; lowest and under rank ascending. */
  function OrderOf(m: Mode): Order {
    match m
    case Highest => Descending
    case Over => Descending
    case Lowest => Ascending
    case Under => Ascending
  }

  /** Lower-cases the ASCII letters of `s`; every other character is kept. */
  function Lower(s: string): (r: string)
    ensures |r| == |s|
    ensures forall i :: 0 <= i < |s| ==> ('A' <= s[i] <= 'Z' <==> r[i] != s[i])
    ensures forall i :: 0 <= i < |s| ==> !('A' <= r[i] <= 'Z')
    ensures forall i :: 0 <= i < |s| && 'A' <= s[i] <= 'Z' ==> r[i] as int == s[i] as int - 'A' as int + 'a' as int
  {
    if s == [] then []
    else
      var c := s[0];
      var c' := if 'A' <= c <= 'Z' then (c as int - 'A' as int + 'a' as int) as char else c;
      [c'] + Lower(s[1..])
  }

  /** `mode.toLowerCase()` compared against the four mode names. */
  function ParseMode(s: string): (r: Option<Mode>)
    ensures r.Some? ==> Lower(s) == Name(r.value)
    ensures r.None? ==> forall m: Mode :: Lower(s) != Name(m)
  {
    var l := Lower(s);
    if l == "highest" then Some(Highest)
    else if l == "lowest" then Some(Lowest)
    else if l == "over" then Some(Over)
    else if l == "under" then Some(Under)
    else None
  }

  /** Every mode is recognised from its own name, and only from strings that lower-case to it. */
  lemma ParseModeInverse(m: Mode, s: string)
    ensures ParseMode(Name(m)) == Some(m)
    ensures ParseMode(s) == Some(m) <==> Lower(s) == Name(m)
  {
  }
}
