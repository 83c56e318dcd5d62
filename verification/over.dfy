/** tarkka_over.js after the file is parsed: every hour priced at or above a limit. */
module OverScript {
  import opened Common
  import Query

  /**
   Fails on stale data; otherwise reports the limit as `value` and, in
   increasing order, exactly the hours whose price is at least the
   limit: the same hours as the over mode of the query engine, ordered
   by hour instead of by price.
   */
  method Run(file: PriceFile, midnight: int, limit: real) returns (r: Result<Report>)
    ensures r.Fail? <==> IsStale(file, midnight)
    ensures r.Fail? ==> r.failure == StaleData
    ensures r.Ok? ==> r.value.unit == "c/kWh" && r.value.value == limit
    ensures r.Ok? ==> forall h: int :: h in r.value.hours <==> 0 <= h < |file.data| && file.data[h] >= limit
    ensures r.Ok? ==> forall i, j :: 0 <= i < j < |r.value.hours| ==> r.value.hours[i] < r.value.hours[j]
    ensures r.Ok? ==> (set h | h in r.value.hours) == Query.OverHours(file.data, limit)
  {
    if IsStale(file, midnight) {
      return Fail(StaleData);
    }
    var data := file.data;
    var hours: seq<nat> := [];
    var i := 0;
    while i < |data|
      invariant 0 <= i <= |data|
      invariant forall h: int :: h in hours <==> 0 <= h < i && data[h] >= limit
      invariant forall a :: 0 <= a < |hours| ==> hours[a] < i
      invariant forall a, b :: 0 <= a < b < |hours| ==> hours[a] < hours[b]
    {
      if data[i] >= limit {
        hours := hours + [i];
      }
      i := i + 1;
    }
    forall h: nat
      ensures h in (set h | h in hours) <==> h in Query.OverHours(data, limit)
    {
      Query.OverHoursExact(data, limit, h);
    }
    r := Ok(Report(limit, Unit, hours));
  }
}
