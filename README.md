# Weather climatology and 3D-printer working hours

This project models the core engine behind a small weather service for outdoor 3D printing. The service stores hourly observations per location: a timestamp, temperature, wind speed and precipitation. From them it computes two things:

- **Aggregator.** It folds every observation into a bucket keyed by its (month, day, hour), dropping the year. Each bucket keeps running sums and a sample count.
- **Synthesiser.** It walks the 8,760 hours of the non-leap year 2025 from January 1, 00:00. For each hour whose key has a bucket, it emits the bucket's means. Hours without a bucket are skipped, so the profile is sparse.

A working-hours evaluator checks the inclusive thresholds `temperature >= min_temp`, `wind <= max_wind` and `precipitation <= max_precip`. It runs either over the raw observations or over the profile. It reports:

- the number of matching hours;
- the printed output, which is that number times the print speed;
- a per-date calendar, in order of first appearance.

The forecast endpoints answer "not found" when a location has no observations. The working-hours forecast endpoint first makes one reload attempt, whose failure is a server error.

Modules:

- `Calendar` (`calendar.dfy`): the fixed 2025 calendar. Hour index `i` is day-of-year `i / 24`, hour `i % 24`. A month-length table gives the month and day. Round trips go between hour indices and (month, day, hour) keys, and walking the hours is chronological.
- `Climatology` (`climatology.dfy`): the records and the aggregation loop. The loop is written as a method over two maps. It is proved against the reference counts `CountOf` and sums `SumOf`.
- `Window` (`window.dfy`): the predicate and the raw evaluation loop, with its insertion-ordered `day_summary` dictionary. The dictionary is modelled as a key-order sequence plus a map. This module also holds the result's totals and calendar, and their proof against the reference `WindowSpec`. The profile loop, `Forecast.EvaluateProfile`, is proved against the same reference.
- `Forecast` (`forecast.dfy`): the synthesis loop and the profile evaluation loop. They are proved against the reference profile `Profile`, together with the profile's shape: ordering, one entry per covered hour, and the means.
- `Handlers` (`handlers.dfy`): `generate_forecast` and `forecast_working_hours` with their error paths.

The store query is a parameter: a handler receives the location's records as a sequence. The reload in `forecast_working_hours` is also a parameter, of type `Reload`. It is either the records the store holds after the reload, or a failure.

The target year is always the non-leap 2025, walked for 365 × 24 hours.

`generate_forecast` answers an empty record set with the not-found error (404), whether or not the location exists. `forecast_working_hours` instead first attempts a reload. For a location that does not exist, `load_weather` raises a 404 of its own. The handler's `except Exception` catches it and answers 500, so in the model that case is the reload failure `ReloadFailed`.

## Model

| member | source | states |
|---|---|---|
| Climatology.BucketOf | main.py:184 | A record's bucket key: the month, day and hour of its timestamp, the year dropped. |
| Climatology.Aggregate | main.py:180-191 | After one pass, the sums map and the counts map equal `SumsMap(data)` and `CountsMap(data)`. Each key maps to the sums and count of exactly the records with that (month, day, hour). The maps hold no other key. |
| Climatology.CountsMap | main.py:185-191 | The counts map has exactly the keys some record has, and every count is at least 1, so every mean is defined. |
| Climatology.SumsMap | main.py:185-190 | The sums map has exactly the keys some record has. |
| Climatology.CountPositiveIffPresent | main.py:185-191 | A bucket's count is positive if and only if some record has that key. |
| Climatology.EmptyBucketHasNoSums | main.py:185-187 | A key no record has accumulates zero sums, which is the initial `0.0` entry of a new bucket. |
| Climatology.CountsPositive | main.py:187-191 | Every key that some record has gets a count of at least 1. |
| Climatology.AggregateConcat | main.py:183-191 | Aggregating two batches one after the other adds their per-bucket counts and sums. |
| Climatology.RemoveOneBuckets | main.py:183-191 | Taking one record out of a batch removes exactly its contribution from its bucket. |
| Climatology.AggregatePermutation | main.py:183-191 | Records returned in any order (the same multiset) give the same counts and sums in every bucket. |
| Climatology.AggregateIgnoresYear | main.py:184 | Records that differ only in their years fill the same buckets with the same sums and counts. |
| Calendar.MonthLength | main.py:193-199 | Every month of the non-leap year has 28 to 31 days. |
| Calendar.DaysBeforeYear | main.py:197 | The month lengths add up to the 365 days the loop walks. |
| Calendar.DaysBeforeMonotone | main.py:198 | Later months start on later days of the year. |
| Calendar.MonthOfDay | main.py:198-199 | The month found for a day-of-year covers that day. |
| Calendar.HourKey | main.py:198-199 | The `strftime("%m-%d %H")` key of `base_date + timedelta(hours=i)`: every hour of the walk has a real (month, day, hour) key of the non-leap year, and the key gives back the hour index. |
| Calendar.HourTimestamp | main.py:194-198 | `base_date + timedelta(hours=i)`: a timestamp in 2025 whose (month, day, hour) is the hour's key. |
| Calendar.HourIndexRoundTrip | main.py:197-199 | Every (month, day, hour) of a non-leap year is met at hour `HourIndex(k)` of the walk, and at no other hour. |
| Calendar.LeapDayNeverVisited | main.py:193-199 | No hour of the walk has a February 29 key. |
| Calendar.HourIndexMonotone | main.py:197-199 | Later keys of the year are met at later hours. |
| Calendar.HourTimestampOrdered | main.py:197-198 | The walk's timestamps are strictly increasing. |
| Calendar.HourTimestampInjective | main.py:197-198 | Distinct hours of the walk have distinct timestamps. |
| Forecast.Means | main.py:202-208 | A bucket's means, each running sum divided by the sample count: each mean times the count gives back the sum. |
| Forecast.MeanRecord | main.py:198-208 | The entry of a covered hour: its 2025 timestamp, whose key is the hour's key, and values that times the bucket's count give back the bucket's sums. |
| Forecast.Synthesize | main.py:193-209 | The synthesis loop returns exactly `Profile(sums, counts)`. |
| Forecast.ProfileShape | main.py:197-209 | The profile has one entry per covered hour, in hour order, and each entry carries that hour's bucket means. |
| Forecast.CoveredHoursShape | main.py:197-201 | The covered hours are ascending and in range. Each has a bucket, and every hour with a bucket is among them. |
| Forecast.ProfileLength | main.py:197-209 | The profile has at most 8,760 entries. It has exactly 8,760 if and only if every hour's key has a bucket. |
| Forecast.ProfileChronological | main.py:197-209 | The profile's timestamps are strictly increasing. |
| Forecast.ProfileEntryForHour | main.py:197-209 | An hour has a profile entry if and only if its key has a bucket. That entry carries the bucket's means. |
| Forecast.UnvisitedBucketIgnored | main.py:193-201 | A bucket whose key is not a real date of the year, such as February 29, does not change the profile. |
| Forecast.EvaluateProfile | main.py:250-279 | The profile evaluation loop returns `WindowSpec(Profile(sums, counts), c)`. Its on-the-fly means and predicate give the same result as evaluating the synthesised profile. |
| Forecast.ProfileMatchingStep | main.py:262-275 | One more hour adds its timestamp to the matches exactly when its key has a bucket and the bucket's unrounded means satisfy the predicate. |
| Forecast.ProfileCalendarAscending | main.py:253-279 | On the forecast path the calendar's dates strictly ascend. |
| Window.Matches | main.py:154-158 | The working-hour predicate, inclusive at all three thresholds; the profile loop applies the same predicate to the means (main.py:269-273). |
| Window.GetWorkingHours | main.py:150-171 | The raw evaluation loop returns `WindowSpec(data, c)`. On an empty record set it returns 0 hours, 0 output and an empty calendar. |
| Window.Summarize | main.py:163-165 | The totals and the calendar built from the tallied dictionary equal the reference result for the matching timestamps. |
| Window.RecordWorkingHour | main.py:159-161 | Appending a matching timestamp and incrementing its date keeps the dictionary a faithful tally in first-seen order. |
| Window.TallyStep | main.py:160-161 | A `defaultdict(int)` increment appends a first-seen date with count 1 and otherwise only adds one to its count. |
| Window.BuildCalendar | main.py:165 | The calendar comprehension has one entry per dictionary key. |
| Window.MatchingSubsequence | main.py:153-159 | The matching timestamps are a subsequence of the scan: in scan order, every matching record once, and no other record. |
| Window.WindowTotals | main.py:163-164 | `total_hours` is the number of matching records and equals the calendar's hours added up. `total_output` is `total_hours` times the print speed, so a speed of 0 gives 0. An empty input gives the zero result. |
| Window.CalendarEntries | main.py:160-165 | The calendar lists each date at most once, and every entry has at least one hour. A date is listed if and only if some matching record lies on it. |
| Window.DayOrderFirstSeen | main.py:161-165 | The calendar built from any prefix of the matches is a prefix of the final calendar's dates, which is first-seen order. |
| Window.DayOrderAscending | main.py:161-165 | On a chronological scan the calendar's dates strictly ascend. |
| Window.DayOrderDistinct | main.py:161 | No date is listed twice. |
| Window.DayOrderMembers | main.py:161 | A date is listed if and only if its count is positive. |
| Window.DayCountPositive | main.py:160-161 | A date's count is positive if and only if some matching timestamp lies on it. |
| Window.CalendarSumsToTotal | main.py:163-165 | The calendar's hours add up to the number of matching timestamps. |
| Window.ThresholdsInclusive | main.py:154-158 | A reading exactly at all three thresholds is a working hour. |
| Handlers.GenerateForecast | main.py:173-215 | An empty record set gives exactly the not-found error. Otherwise the result is the synthesised profile of the records' buckets. |
| Handlers.ForecastWorkingHours | main.py:217-289 | An empty store whose reload fails gives exactly the server error. An empty store that stays empty after the reload gives exactly the not-found error. Otherwise the result is the window evaluation of the profile of the stored records, or of the reloaded records. |
| Handlers.ForecastMeansOfRecords | main.py:183-209 | Every forecast entry is an hour of 2025 whose key at least one record has. Its three values are those records' sums divided by their count. |
| Handlers.OneBucket | main.py:183-191 | When every record has the same key, the bucket holds all of them and their total temperature. |
| Handlers.TenYearMean | main.py:183-209 | Ten January 15, 08:00 readings from 2014 to 2023 make one bucket of 10 samples. The forecast for January 15, 2025, 08:00 has their mean temperature, 5.6. |

## Left out

- `round(..., 2)` in `generate_forecast` (main.py:206-208) is not modelled. The model's means are exact. `forecast_working_hours` tests the unrounded means in any case.
- Floating point in general is not modelled. Measurements and thresholds are exact reals, so the model does not capture float rounding or the order-dependence of float addition. `Climatology.AggregatePermutation` holds for exact sums only.
- The store query and the sessions are not modelled: `SessionLocal`, `db.query(...).all()` and `db.close()`. Each handler takes the location's records as a parameter, in the order the store returns them.
- `load_weather`, `fetch_hourly_weather` and `geocode_location` are network and database I/O. They are not modelled. The reload attempt in `forecast_working_hours` is the `Reload` parameter.
- `add_location`, HTTP routing, CORS, static files, `read_root` and server start-up are transport or persistence plumbing, and are not modelled.
- ISO timestamp strings, `strftime` keys and `str(day)` are not modelled. The model uses structured (year, month, day, hour) values and (month, day, hour) keys.
- The `location_id` echoed in the responses and the debug `print` calls are not modelled.
- Values the ORM could return as missing (`None`) are not modelled: every record carries all three measurements.
- `models.py` and `schemas.py` have no behaviour. Their fields give only the shapes of `HourlyRecord` and `Conditions`.
