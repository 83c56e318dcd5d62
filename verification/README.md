# Tarkka hourly price queries, modelled in Dafny

The Tarkka scripts keep one day's hourly electricity spot prices as
`{time, data}` (a millisecond timestamp and one price per hour, in
c/kWh). They answer four kinds of question about that day:

- `highest`: the most expensive hours;
- `lowest`: the cheapest hours;
- `over`: the hours at or above a limit;
- `under`: the hours at or below a limit.

Two particle.io callers act on the answer for one hour: `tarkka_particleIo.js` always asks about the current hour, and `tarkka_particleIoCallFunction.js` asks about its `modeHour` argument, which is "current" unless given.

This project models the following:

- **The query engine of `tarkka_query.js`** (`query.dfy`, `ranking.dfy`).
  - The working set holds one `{hour, value}` record per price.
  - Records are ranked by value in the mode's direction, and equal values by ascending hour.
  - `highest`/`lowest` then keep a prefix capped by `count`, after the clamps `count <= 0 -> 1` and `count >= n -> n`. `splice` then truncates a fractional count, so a count in (0, 1) keeps no record and 2.5 keeps two on a day of two hours or more.
  - `over`/`under` keep every record with `value >= limit` or `value <= limit`.
  - The ranking is specified as the unique ranked permutation of the working set. `Rank` (an insertion sort) computes it.
- **The single-purpose scanners**:
  - `tarkka_highest.js` and `tarkka_lowest.js` share one loop, `extremes.dfy`. It keeps a running value that starts at the sentinel -1.
  - `tarkka_over.js` is `over.dfy`.
- **The decisions of the particle.io callers** (`particle.dfy`, `particle_event.dfy`, `particle_call.dfy`):
  - which query to make, and for which hour;
  - how the reply is classified (failure, no match, act), including a query that throws and a reply without `values`, both of which end in the catch block with exit 1;
  - the remaining seconds of the event duration;
  - the function parameter string.

Some things become parameters:

- The wall clock: today's midnight, and the hour, minutes and seconds of "now".
- The query module the callers load, together with their parsing of the mode parameter: a function `answer` from query call to reply.
- The host's number-to-string conversion (`show`) and integer parser (`parseInt`).

Prices are `real` and are only compared.

The model follows what the code does, including where that differs from what a reader might expect:

- `tarkka_query.js` has no tie extension. `count` is a hard cap, so `highest 1` returns one record even when two hours share the maximum.
- `tarkka_query.js` has no hour filter.
- An absent `count` defaults to 1, not 5.
- An absent `limit` defaults to the value of `count`, which is 1, not to the initial 5.00.
- An unrecognised mode is not an error in `tarkka_query.js`. No selection case runs, so the result carries only the unit (`values` is `None`). The script still exits with status 0.
- Once the file has been parsed into `{time, data}`, a stale file (`time` before today's midnight) is the only failure the engine reports. A parsed file without `data` or without `time` is not modelled (see "Left out").

## Model

| member | source | states |
|---|---|---|
| Common.Lower | js/tarkka_query.js:61 | `toLowerCase` on ASCII: the length is kept, exactly the upper-case letters change, each to its lower-case letter, and no upper-case letter is left |
| Common.ParseMode | js/tarkka_query.js:113-139 | a recognised mode is the one whose name the lowered argument equals; an argument that lowers to none of the four names selects no case |
| Common.ParseModeInverse | js/tarkka_particleIo.js:118-137 | a mode string selects mode `m` exactly when it lower-cases to `m`'s name, and every mode name selects its own mode |
| Ranking.Rank | js/tarkka_query.js:90-111 | the ranking is a permutation of its input in which no record comes after one it precedes: by value in the mode's direction, equal values by ascending hour |
| Ranking.RankedUnique | js/tarkka_query.js:90-111 | two ranked arrangements of the same records are identical, so the comparator fixes the order completely, ties included |
| Ranking.RankIsTheRanking | js/tarkka_query.js:90-111 | any ranked permutation of the working set is the one `Rank` returns, whichever sort produced it |
| Ranking.PrecedesTotal | js/tarkka_query.js:94-109 | the ranking order is irreflexive, asymmetric and total on distinct records |
| Query.WorkingSet | js/tarkka_query.js:81-88 | the working set has one record per price, record `i` being hour `i` with price `data[i]` |
| Query.WorkingSetRecords | js/tarkka_query.js:81-88 | a record is in the working set exactly when its hour indexes the prices and its value is that hour's price; hours are distinct |
| Query.TakeCount | js/tarkka_query.js:116-122 | the number of records kept is at most the day's length and 0 on an empty day. A positive count keeps `min(floor(count), n)` records, so a count in (0, 1) keeps none. A count of 0 or less keeps `min(1, n)` |
| Query.Threshold | js/tarkka_query.js:124-139 | the kept records are exactly those of the input whose value reaches the limit (`>=` for over, `<=` for under) |
| Query.ThresholdIsPrefix | js/tarkka_query.js:124-139 | on a ranked sequence the records that reach the limit form its head |
| Query.RankedRecords | js/tarkka_query.js:81-111 | sorting keeps exactly the working set's records: a record is ranked exactly when its hour indexes the prices and its value is that hour's price |
| Query.Parameters | js/tarkka_query.js:36-65 | the third argument becomes the count for highest/lowest and the limit for over/under; when absent the count is 1, and for over/under the limit is 1 as well (the count's value), not 5.00 |
| Query.Evaluate | js/tarkka_query.js:77-143 | the query fails exactly on stale data, with that reason; otherwise the unit is "c/kWh", `values` is absent exactly when the mode is not recognised, and for a recognised mode it is that mode's selection |
| Query.AnswerCount | js/tarkka_query.js:113-123 | the selection `Query.Answer` for highest/lowest: it returns the first TakeCount(count, n) records of the ranking of the working set, each outranking every record left out |
| Query.CountOneIsEarliestExtreme | js/tarkka_query.js:90-122 | with the default count on a non-empty day the result is one record: the earliest hour holding the extreme price |
| Query.AnswerThreshold | js/tarkka_query.js:124-139 | the selection `Query.Answer` for over/under: it returns exactly the records with `value >= limit` / `value <= limit`, ranked, as the head of the ranking |
| Query.LimitInOverAndUnder | js/tarkka_query.js:124-139 | an hour priced exactly at the limit is in both the over and the under result |
| Query.OverUnderCoverDay | js/tarkka_query.js:124-139 | for any limit every hour of the day is in the over or the under result |
| Query.OverHoursExact | js/tarkka_query.js:124-131 | the hours of the over result are exactly the hours priced at or above the limit |
| Extremes.Scan | js/tarkka_highest.js:55-75 | the loop reports -1 and no hours on an empty day; on a day without a price of -1 it reports the extreme price and only the last hour holding it |
| Extremes.SentinelAppends | js/tarkka_highest.js:59-63 | while the running value is -1, the next price is taken and its hour appended without clearing the list |
| Extremes.FoldAgreesWithoutSentinel | js/tarkka_lowest.js:55-75 | on a day without a price of -1 the loop as written gives the same report as the corrected scan |
| Extremes.FixedFoldFindsLastExtreme | js/tarkka_highest.js:57-75 | the corrected scan reports one hour, the last one holding the extreme price, and that price |
| Extremes.HighestMisreportsNegativeDay | js/tarkka_highest.js:55-75 | on prices [-3, -1, -5] the loop reports -5 at hours [1, 2]; the corrected scan reports -1 at hour 1 |
| Extremes.LowestMisreportsNegativeDay | js/tarkka_lowest.js:55-75 | on prices [-0.5, -1, 2] the loop reports 2 at hours [1, 2]; the corrected scan reports -1 at hour 1 |
| HighestScript.Run | js/tarkka_highest.js:50-80 | fails exactly on stale data; otherwise reports unit c/kWh, -1 and no hours for an empty day, else (no price of -1) the maximum and the single last hour holding it |
| LowestScript.Run | js/tarkka_lowest.js:50-80 | fails exactly on stale data; otherwise reports unit c/kWh, -1 and no hours for an empty day, else (no price of -1) the minimum and the single last hour holding it |
| OverScript.Run | js/tarkka_over.js:50-68 | fails exactly on stale data; otherwise reports the limit as value, unit c/kWh, and in increasing order exactly the hours priced at or above the limit, the same hour set as the over query |
| Particle.PlanQuery | js/tarkka_particleIoCallFunction.js:135-155 | an unrecognised mode fails with that mode before any query; otherwise the query call carries the recognised mode, the file, the raw parameter text and the hour. `answer` stands for the caller's parse of that text and the query together |
| Particle.ExitStatus | js/tarkka_particleIo.js:118-153 | a run that fails before the network part exits with 1; a run that finds no match, or goes on to act, exits with 0 unless the network part fails |
| Particle.Classify | js/tarkka_particleIo.js:139-179 | a null reply fails with "no data", a reply with an error fails with that error, and a thrown query or a reply without `values` fails as an internal error (the catch block); an empty result is "no match"; otherwise the first record is acted on |
| ParticleEvent.Remaining | js/tarkka_particleIo.js:156-159 | the duration minus the seconds gone in this hour when that is not negative, else the whole duration |
| ParticleEvent.RemainingBounded | js/tarkka_particleIo.js:156-159 | for a non-negative duration the event duration lies between 0 and that duration |
| ParticleEvent.DefaultEndsOnTheHour | js/tarkka_particleIo.js:77-159 | with the default 3600 and a clock reading of minutes and seconds in 0..59 the event lasts 1..3600 seconds and ends exactly on the next full hour |
| ParticleEvent.Run | js/tarkka_particleIo.js:79-179 | fewer than 7 arguments or an unknown mode fails; the reply to the current-hour query is classified, and a failure carries the reason `Classify` gives; the exit status is 0 exactly when the query returned a reply without error and with `values`; an event carries the event name, the first record's hour and value and the remaining duration |
| ParticleEvent.OnlyCurrentHourIsQueried | js/tarkka_particleIo.js:118-134 | in every mode only the query for the clock's current hour affects the outcome |
| ParticleCall.FinalParams | js/tarkka_particleIoCallFunction.js:174-179 | an absent or "query" parameter becomes `value=<v>,hour=<h>` from the first record, which reads back to the same two texts; any other parameter is passed through verbatim |
| ParticleCall.QueryParamsRoundTrip | js/tarkka_particleIoCallFunction.js:175-176 | a value text without a comma and the hour text are recovered from `value=<v>,hour=<h>` |
| ParticleCall.OnlyRequestedHourIsQueried | js/tarkka_particleIoCallFunction.js:92-151 | only the query for the `modeHour` argument, or "current" when it is absent, affects the outcome |
| ParticleCall.Run | js/tarkka_particleIoCallFunction.js:92-193 | fewer than 7 arguments or an unknown mode fails; the hour defaults to "current"; the reply is classified, and a failure carries the reason `Classify` gives; the exit status is 0 exactly when the query returned a reply without error and with `values`; a call goes to the named device function with the final parameter string |

## Left out

- tarkka_fetch.js is not part of this model. It does the HTTP download, rewrites the response and writes the file.
- File access and JSON are not modelled: `statSync`, `readFileSync`, `JSON.parse` and `JSON.stringify`. The model takes the parsed `{time, data}`, and a missing or unreadable file is not modelled.
- Usage text and argument-count checks of tarkka_query.js, tarkka_highest.js, tarkka_lowest.js and tarkka_over.js are not modelled. tarkka_over.js, for example, prints its usage and exits 1 with fewer than two arguments. These are CLI plumbing. The arguments arrive already split into mode and numeric parameter.
- Login, device lookup, publishing and the remote function call of the particle.io callers are not modelled. They are network and callbacks.
- The `queryHighest`, `queryLowest`, `queryOver` and `queryUnder` functions the callers load are not part of this model. Their reply, or the fact that they threw, is the input `answer`. Any other exception inside the callers' `try` is not modelled.
- Number parsing is left out: `parseInt` of the count, `parseFloat` of the limit, and the NaN they can give. The callers parse the mode parameter before they call `queryHighest` and the rest. The model hands the raw text to `answer`, which stands for the parse and the query together. The duration parser is a parameter.
- A parsed file without `data` is not modelled. tarkka_query.js then throws when it reads `data.data.length` and exits 1. A file without `time` is not modelled either. There `undefined < midnight` is false, so such a file is never stale. The model's price file always has both fields.
- Prices are `real`. IEEE rounding, NaN and string-to-number coercion in comparisons are not modelled.
- `toLowerCase` is modelled for ASCII letters only.
- The sort routine of the JavaScript engine is not modelled. Neither is the comparator's boolean return on equal values. The model specifies the intended order (value in the mode's direction, then ascending hour) and proves there is exactly one such arrangement.
- The tie extension and the hour filter are not in tarkka_query.js, so they are not modelled.

## Findings

| source | as written | input that shows it | evidently intended | confidence | as-written member | corrected member |
|---|---|---|---|---|---|---|
| js/tarkka_highest.js:55-63 | the price -1 doubles as "no value seen yet", so after a -1 the next price is taken unconditionally and its hour appended | prices [-3, -1, -5] report value -5 with hours [1, 2] | the maximum -1 with hour [1] (negative prices are legal) | medium, not executed | Extremes.HighestMisreportsNegativeDay | Extremes.FixedFoldFindsLastExtreme |
| js/tarkka_lowest.js:55-63 | the same sentinel in the minimum scan | prices [-0.5, -1, 2] report value 2 with hours [1, 2] | the minimum -1 with hour [1] | medium, not executed | Extremes.LowestMisreportsNegativeDay | Extremes.FixedFoldFindsLastExtreme |
