/**
 The query engine of tarkka_query.js: build one (hour, value) record per
 price, rank the records in the mode's direction, then keep a clamped
 prefix (highest, lowest) or every record on the good side of a limit
 (over, under). The count is a hard cap: there is no tie extension and
 no hour filter in this script.
 */
module Query {
  import opened Common
  import opened Ranking

  /** The script's initial globals: `count = 1` and `limit = 5.00`. */
  const InitialCount: real := 1.0
  const InitialLimit: real := 5.00

  /** What the script prints on success: `values` is absent when no mode case ran. */
  datatype QueryOutput = QueryOutput(values: Option<seq<HourValue>>, unit: string)

  /** Record `i` of the working set is hour `i` with price `data[i]`. */
  function WorkingSet(data: seq<real>): (ws: seq<HourValue>)
    ensures |ws| == |data|
    ensures forall i :: 0 <= i < |ws| ==> ws[i].hour == i && ws[i].value == data[i]
  {
    seq(|data|, i requires 0 <= i < |data| => HourValue(i, data[i]))
  }

  /** The records of the working set are exactly the pairs (i, data[i]), one per index. */
  lemma WorkingSetRecords(data: seq<real>, x: HourValue)
    ensures x in WorkingSet(data) <==> x.hour < |data| && x.value == data[x.hour]
    ensures forall i, j :: 0 <= i < j < |data| ==> WorkingSet(data)[i].hour != WorkingSet(data)[j].hour
  {
  }

  function Min(a: int, b: int): int { if a <= b then a else b }
  function Max(a: int, b: int): int { if a <= b then b else a }

  /**
   How many records `splice(0, count)` keeps out of `n` after the clamps
   `count <= 0 -> 1` and `count >= n -> n`; a fractional count is
   truncated by splice.
   */
  function TakeCount(count: real, n: nat): (k: nat)
    ensures k <= n
    ensures n == 0 ==> k == 0
    ensures count > 0.0 ==> k as real <= count
    ensures count == count.Floor as real ==> k == Min(Max(count.Floor, 1), n)
    ensures k == if count <= 0.0 then Min(1, n) else Min(count.Floor, n)
  {
    var c := if count <= 0.0 then 1.0 else count;
    if c >= n as real then n else c.Floor
  }

  /** The records of `xs`, in order, whose value reaches `limit` in direction `o`. */
  function Threshold(o: Order, xs: seq<HourValue>, limit: real): (r: seq<HourValue>)
    ensures |r| <= |xs|
    ensures forall x :: x in r <==> x in xs && Reaches(o, x.value, limit)
  {
    if xs == [] then []
    else
      var rest := Threshold(o, xs[1..], limit);
      assert forall x :: x in xs <==> x == xs[0] || x in xs[1..] by {
        assert xs == [xs[0]] + xs[1..];
      }
      if Reaches(o, xs[0].value, limit) then [xs[0]] + rest else rest
  }

  /** On a ranked sequence the records that reach the limit form its head. */
  lemma {:induction false} ThresholdIsPrefix(o: Order, xs: seq<HourValue>, limit: real)
    requires Ranked(o, xs)
    ensures Threshold(o, xs, limit) == xs[..|Threshold(o, xs, limit)|]
  {
    if xs != [] {
      var rest := Threshold(o, xs[1..], limit);
      if Reaches(o, xs[0].value, limit) {
        RankedTail(o, xs);
        ThresholdIsPrefix(o, xs[1..], limit);
        assert rest == xs[1..][..|rest|];
        assert [xs[0]] + xs[1..][..|rest|] == xs[..|rest| + 1];
      } else {
        MissedHeadMissesAll(o, xs, limit);
        ThresholdOfNone(o, xs[1..], limit);
      }
    }
  }

  /** Once the head of a ranked sequence misses the limit, so does everything after it. */
  lemma MissedHeadMissesAll(o: Order, xs: seq<HourValue>, limit: real)
    requires Ranked(o, xs) && xs != [] && !Reaches(o, xs[0].value, limit)
    ensures forall x :: x in xs[1..] ==> !Reaches(o, x.value, limit)
  {
    forall x | x in xs[1..]
      ensures !Reaches(o, x.value, limit)
    {
      var j :| 0 <= j < |xs[1..]| && xs[1..][j] == x;
      assert !Precedes(o, xs[j + 1], xs[0]);
    }
  }

  lemma {:induction false} ThresholdOfNone(o: Order, xs: seq<HourValue>, limit: real)
    requires forall x :: x in xs ==> !Reaches(o, x.value, limit)
    ensures Threshold(o, xs, limit) == []
  {
    if xs != [] {
      assert xs[0] in xs;
      ThresholdOfNone(o, xs[1..], limit);
    }
  }

  /** The mode's count and limit after argument handling: both default to the count 1. */
  function Parameters(m: Mode, arg: Option<real>): (p: (real, real))
    ensures arg.Some? ==> (if m in {Highest, Lowest} then p.0 else p.1) == arg.value
    ensures arg.None? ==> p.0 == InitialCount && (m in {Over, Under} ==> p.1 == InitialCount)
  {
    if m == Highest || m == Lowest then (arg.GetOr(InitialCount), InitialLimit)
    else (InitialCount, arg.GetOr(InitialCount))
  }

  /**
   The records a recognised mode `m` prints for prices `data` and the
   numeric third argument `arg`.
   */
  function Answer(m: Mode, data: seq<real>, arg: Option<real>): seq<HourValue> {
    var ranked := Rank(OrderOf(m), WorkingSet(data));
    var p := Parameters(m, arg);
    match m
    case Highest => ranked[..TakeCount(p.0, |ranked|)]
    case Lowest => ranked[..TakeCount(p.0, |ranked|)]
    case Over => Threshold(Descending, ranked, p.1)
    case Under => Threshold(Ascending, ranked, p.1)
  }

  /**
   The whole script after the file is parsed: `midnight` is today's
   midnight, `modeArg` the second argument and `arg` the numeric value
   of the third argument when there is one.
   */
  function Evaluate(file: PriceFile, midnight: int, modeArg: string, arg: Option<real>): (r: Result<QueryOutput>)
    ensures r.Fail? <==> IsStale(file, midnight)
    ensures r.Fail? ==> r.failure == StaleData
    ensures r.Ok? ==> r.value.unit == "c/kWh"
    ensures r.Ok? ==> (r.value.values.None? <==> ParseMode(modeArg).None?)
    ensures r.Ok? && ParseMode(modeArg).Some? ==>
      r.value.values == Some(Answer(ParseMode(modeArg).value, file.data, arg))
  {
    if IsStale(file, midnight) then Fail(StaleData)
    else
      match ParseMode(modeArg)
      case None => Ok(QueryOutput(None, Unit))
      case Some(m) => Ok(QueryOutput(Some(Answer(m, file.data, arg)), Unit))
  }

  /** The records of a ranked head come before every record left out of it. */
  lemma HeadPrecedesRest(o: Order, ranked: seq<HourValue>, k: nat, a: HourValue, b: HourValue)
    requires Ranked(o, ranked) && k <= |ranked|
    requires a in ranked[..k] && b in ranked && b !in ranked[..k]
    ensures Precedes(o, a, b)
  {
  }

  /** The ranking holds exactly the records of the working set. */
  lemma RankedRecords(o: Order, data: seq<real>, x: HourValue)
    ensures x in Rank(o, WorkingSet(data)) <==> x.hour < |data| && x.value == data[x.hour]
  {
    var ws := WorkingSet(data);
    WorkingSetRecords(data, x);
    calc <==> {
      x in Rank(o, ws);
      x in multiset(Rank(o, ws));
      x in multiset(ws);
      x in ws;
    }
  }

  /**
   highest and lowest: the result is the first TakeCount(count, n)
   records of the ranking, and each of them outranks every record left out.
   */
  lemma AnswerCount(m: Mode, data: seq<real>, arg: Option<real>)
    requires m in {Highest, Lowest}
    ensures var v := Answer(m, data, arg);
      var ws := WorkingSet(data);
      && |v| == TakeCount(arg.GetOr(1.0), |data|)
      && v == Rank(OrderOf(m), ws)[..|v|]
      && Ranked(OrderOf(m), v)
      && (forall x :: x in v ==> x in ws)
      && (forall a, b :: a in v && b in ws && b !in v ==> Precedes(OrderOf(m), a, b))
  {
    var o := OrderOf(m);
    var ws := WorkingSet(data);
    var ranked := Rank(o, ws);
    assert |ranked| == |multiset(ranked)| == |multiset(ws)| == |ws|;
    var k := TakeCount(arg.GetOr(1.0), |ranked|);
    var v := ranked[..k];
    assert Answer(m, data, arg) == v;
    forall x | x in v
      ensures x in ws
    {
      assert x in ranked;
      assert x in multiset(ranked);
    }
    forall a, b | a in v && b in ws && b !in v
      ensures Precedes(o, a, b)
    {
      assert b in multiset(ws);
      assert b in ranked;
      HeadPrecedesRest(o, ranked, k, a, b);
    }
  }

  /** With the default count on a non-empty day, the single result is the earliest hour of the extreme price. */
  lemma CountOneIsEarliestExtreme(m: Mode, data: seq<real>)
    requires |data| > 0 && m in {Highest, Lowest}
    ensures var v := Answer(m, data, None);
      && |v| == 1
      && v[0].hour < |data| && v[0].value == data[v[0].hour]
      && (forall i :: 0 <= i < |data| ==> Reaches(OrderOf(m), v[0].value, data[i]))
      && (forall i :: 0 <= i < v[0].hour ==> data[i] != v[0].value)
  {
    var o := OrderOf(m);
    AnswerCount(m, data, None);
    var v := Answer(m, data, None);
    var x := v[0];
    assert x in v;
    WorkingSetRecords(data, x);
    forall i | 0 <= i < |data|
      ensures Reaches(o, x.value, data[i])
    {
      WorkingSetRecords(data, HourValue(i, data[i]));
      if HourValue(i, data[i]) != x {
        assert HourValue(i, data[i]) !in v;
        assert Precedes(o, x, HourValue(i, data[i]));
      }
    }
    forall i | 0 <= i < x.hour
      ensures data[i] != x.value
    {
      WorkingSetRecords(data, HourValue(i, data[i]));
      assert HourValue(i, data[i]) !in v;
      assert Precedes(o, x, HourValue(i, data[i]));
    }
  }

  /**
   over and under: the result holds exactly the records whose value is
   `>= limit` (over) or `<= limit` (under), ranked, and it is the head of
   the ranking.
   */
  lemma AnswerThreshold(m: Mode, data: seq<real>, arg: Option<real>)
    requires m in {Over, Under}
    ensures var v := Answer(m, data, arg);
      var limit := arg.GetOr(1.0);
      && (forall x :: x in v <==>
            x.hour < |data| && x.value == data[x.hour]
            && (if m == Over then x.value >= limit else x.value <= limit))
      && Ranked(OrderOf(m), v)
      && v == Rank(OrderOf(m), WorkingSet(data))[..|v|]
  {
    var o := OrderOf(m);
    var ws := WorkingSet(data);
    var ranked := Rank(o, ws);
    var limit := arg.GetOr(1.0);
    var v := Threshold(o, ranked, limit);
    assert Answer(m, data, arg) == v;
    forall x
      ensures x in v <==> x.hour < |data| && x.value == data[x.hour] && Reaches(o, x.value, limit)
    {
      RankedRecords(o, data, x);
    }
    ThresholdIsPrefix(o, ranked, limit);
    forall i, j | 0 <= i < j < |v|
      ensures !Precedes(o, v[j], v[i])
    {
      assert v[i] == ranked[i] && v[j] == ranked[j];
    }
  }

  /** A price equal to the limit is reported by both over and under. */
  lemma LimitInOverAndUnder(data: seq<real>, limit: real, i: nat)
    requires i < |data| && data[i] == limit
    ensures HourValue(i, limit) in Answer(Over, data, Some(limit))
    ensures HourValue(i, limit) in Answer(Under, data, Some(limit))
  {
    AnswerThreshold(Over, data, Some(limit));
    AnswerThreshold(Under, data, Some(limit));
  }

  /** Every hour of the day is reported by over or by under for the same limit. */
  lemma OverUnderCoverDay(data: seq<real>, limit: real, i: nat)
    requires i < |data|
    ensures || HourValue(i, data[i]) in Answer(Over, data, Some(limit))
            || HourValue(i, data[i]) in Answer(Under, data, Some(limit))
  {
    AnswerThreshold(Over, data, Some(limit));
    AnswerThreshold(Under, data, Some(limit));
  }

  /** The hours of the over selection, as a set. */
  function OverHours(data: seq<real>, limit: real): set<nat> {
    set x | x in Answer(Over, data, Some(limit)) :: x.hour
  }

  /** The over selection covers exactly the hours whose price is at least the limit. */
  lemma OverHoursExact(data: seq<real>, limit: real, h: nat)
    ensures h in OverHours(data, limit) <==> h < |data| && data[h] >= limit
  {
    AnswerThreshold(Over, data, Some(limit));
    var v := Answer(Over, data, Some(limit));
    if h < |data| && data[h] >= limit {
      assert HourValue(h, data[h]) in v;
    }
  }
}
