/** tarkka_highest.js after the file is parsed: the most expensive hour of the day. */
module HighestScript {
  import opened Common
  import Extremes

  /**
   Fails on stale data; otherwise reports the highest price and the last
   hour holding it (the loop clears the list on ties). The report is the
   loop as written, so a price of exactly -1 shows the sentinel quirk of
   `Extremes.SentinelAppends`.
   */
  method Run(file: PriceFile, midnight: int) returns (r: Result<Report>)
    ensures r.Fail? <==> IsStale(file, midnight)
    ensures r.Fail? ==> r.failure == StaleData
    ensures r.Ok? ==> r.value.unit == "c/kWh"
    ensures r.Ok? ==> Extremes.ScanState(r.value.value, r.value.hours) == Extremes.Fold(Descending, file.data)
    ensures r.Ok? && file.data == [] ==> r.value.value == -1.0 && r.value.hours == []
    ensures r.Ok? && file.data != [] && Extremes.NoSentinel(file.data) ==>
      && |r.value.hours| == 1
      && var k := r.value.hours[0];
      && k < |file.data| && r.value.value == file.data[k]
      && (forall j :: 0 <= j < |file.data| ==> file.data[j] <= r.value.value)
      && (forall j :: k < j < |file.data| ==> file.data[j] < r.value.value)
  {
    if IsStale(file, midnight) {
      return Fail(StaleData);
    }
    var value, hours := Extremes.Scan(Descending, file.data);
    r := Ok(Report(value, Unit, hours));
  }
}
