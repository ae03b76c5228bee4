/** The forecast synthesiser: walks the 8,760 hours of the target year in
    order and, for every hour whose (month, day, hour) has a bucket, emits the
    bucket's means; hours without a bucket are skipped, so the profile is
    sparse.  Also the working-hours evaluation over that profile. */
module Forecast {
  import opened Calendar
  import opened Climatology
  import opened Window

  /** Every bucket with sums also has a positive count, so each mean
      `sum / count` is defined. */
  predicate Averageable(sums: map<Key, Sums>, counts: map<Key, nat>) {
    forall k :: k in sums ==> k in counts && counts[k] > 0
  }

  /** A bucket's means: each running sum divided by the sample count. */
  function Means(avg: Sums, count: nat): (m: Sums)
    requires count > 0
    ensures m.temperature * count as real == avg.temperature
    ensures m.wind * count as real == avg.wind
    ensures m.precip * count as real == avg.precip
  {
    Sums(avg.temperature / count as real, avg.wind / count as real, avg.precip / count as real)
  }

  /** The profile entry of hour `i`: its timestamp and its bucket's means.
      The means are exact; the forecast endpoint's rounding to two decimals
      is not modelled, and the working-hours endpoint tests the unrounded
      means in any case. */
  function MeanRecord(sums: map<Key, Sums>, counts: map<Key, nat>, i: int): (r: HourlyRecord)
    requires Averageable(sums, counts)
    requires 0 <= i < HoursInYear && HourKey(i) in sums
    ensures r.time.year == TargetYear && KeyOf(r.time) == HourKey(i)
    ensures r.temperature * counts[HourKey(i)] as real == sums[HourKey(i)].temperature
    ensures r.windSpeed * counts[HourKey(i)] as real == sums[HourKey(i)].wind
    ensures r.precipitation * counts[HourKey(i)] as real == sums[HourKey(i)].precip
  {
    var key := HourKey(i);
    var mean := Means(sums[key], counts[key]);
    HourlyRecord(HourTimestamp(i), mean.temperature, mean.wind, mean.precip)
  }

  /** The profile entries of the first `n` hours of the target year. */
  function ProfileUpTo(sums: map<Key, Sums>, counts: map<Key, nat>, n: int): seq<HourlyRecord>
    requires Averageable(sums, counts)
    requires 0 <= n <= HoursInYear
    decreases n
  {
    if n == 0 then []
    else
      var p := ProfileUpTo(sums, counts, n - 1);
      if HourKey(n - 1) in sums then p + [MeanRecord(sums, counts, n - 1)] else p
  }

  /** The synthesised profile of the whole target year. */
  function Profile(sums: map<Key, Sums>, counts: map<Key, nat>): seq<HourlyRecord>
    requires Averageable(sums, counts)
  {
    ProfileUpTo(sums, counts, HoursInYear)
  }

  /** The hour indices below `n` whose key has a bucket, ascending. */
  function CoveredHours(sums: map<Key, Sums>, n: int): seq<int>
    requires 0 <= n <= HoursInYear
    decreases n
  {
    if n == 0 then []
    else
      var p := CoveredHours(sums, n - 1);
      if HourKey(n - 1) in sums then p + [n - 1] else p
  }

  /** The synthesis loop of `generate_forecast`. */
  method Synthesize(sums: map<Key, Sums>, counts: map<Key, nat>) returns (forecast: seq<HourlyRecord>)
    requires Averageable(sums, counts)
    ensures forecast == Profile(sums, counts)
  {
    forecast := [];
    for i := 0 to HoursInYear
      invariant forecast == ProfileUpTo(sums, counts, i)
    {
      var dt := HourTimestamp(i);
      var key := HourKey(i);
      if key in sums {
        var mean := Means(sums[key], counts[key]);
        forecast := forecast + [HourlyRecord(dt, mean.temperature, mean.wind, mean.precip)];
      }
    }
  }

  /** The evaluation loop of `forecast_working_hours`: it computes each
      covered hour's means on the fly and applies the same predicate and the
      same calendar bookkeeping as the raw evaluator, so its result is the
      window evaluation of the synthesised profile. */
  method EvaluateProfile(sums: map<Key, Sums>, counts: map<Key, nat>, c: Conditions) returns (result: WindowResult)
    requires Averageable(sums, counts)
    ensures result == WindowSpec(Profile(sums, counts), c)
  {
    var workingHours: seq<Timestamp> := [];
    var days: seq<Date> := [];
    var daySummary: map<Date, nat> := map[];
    for i := 0 to HoursInYear
      invariant workingHours == MatchingTimes(ProfileUpTo(sums, counts, i), c)
      invariant Tallied(workingHours, days, daySummary)
    {
      ProfileMatchingStep(sums, counts, c, i);
      var dt := HourTimestamp(i);
      var key := HourKey(i);
      if key in sums {
        var mean := Means(sums[key], counts[key]);
        var reading := HourlyRecord(dt, mean.temperature, mean.wind, mean.precip);
        if Matches(reading, c) {
          workingHours, days, daySummary := RecordWorkingHour(workingHours, days, daySummary, dt);
        }
      }
    }
    result := Summarize(workingHours, days, daySummary, c);
  }

  /** One more covered hour extends the matching timestamps by that hour
      exactly when its means satisfy the predicate. */
  lemma {:induction false} ProfileMatchingStep(sums: map<Key, Sums>, counts: map<Key, nat>, c: Conditions, i: int)
    requires Averageable(sums, counts)
    requires 0 <= i < HoursInYear
    ensures MatchingTimes(ProfileUpTo(sums, counts, i + 1), c)
      == if HourKey(i) in sums && Matches(MeanRecord(sums, counts, i), c)
         then MatchingTimes(ProfileUpTo(sums, counts, i), c) + [HourTimestamp(i)]
         else MatchingTimes(ProfileUpTo(sums, counts, i), c)
  {
    var p := ProfileUpTo(sums, counts, i);
    if HourKey(i) in sums {
      var r := MeanRecord(sums, counts, i);
      assert (p + [r])[..|p|] == p;
    }
  }

  /** The covered hours below `n` are ascending, each has a bucket, and
      every hour below `n` with a bucket is among them. */
  lemma {:induction false} CoveredHoursShape(sums: map<Key, Sums>, n: int)
    requires 0 <= n <= HoursInYear
    ensures forall k :: 0 <= k < |CoveredHours(sums, n)| ==>
      0 <= CoveredHours(sums, n)[k] < n && HourKey(CoveredHours(sums, n)[k]) in sums
    ensures forall a, b :: 0 <= a < b < |CoveredHours(sums, n)| ==> CoveredHours(sums, n)[a] < CoveredHours(sums, n)[b]
    ensures forall i :: 0 <= i < n && HourKey(i) in sums ==> i in CoveredHours(sums, n)
    decreases n
  {
    if n > 0 {
      CoveredHoursShape(sums, n - 1);
    }
  }

  /** The profile of the first `n` hours holds one entry per covered hour, in
      the same order, each carrying that hour's bucket means. */
  lemma {:induction false} ProfileShape(sums: map<Key, Sums>, counts: map<Key, nat>, n: int)
    requires Averageable(sums, counts)
    requires 0 <= n <= HoursInYear
    ensures |ProfileUpTo(sums, counts, n)| == |CoveredHours(sums, n)|
    ensures forall k :: 0 <= k < |CoveredHours(sums, n)| ==>
      0 <= CoveredHours(sums, n)[k] < n
      && HourKey(CoveredHours(sums, n)[k]) in sums
      && ProfileUpTo(sums, counts, n)[k] == MeanRecord(sums, counts, CoveredHours(sums, n)[k])
    decreases n
  {
    CoveredHoursShape(sums, n);
    if n > 0 {
      ProfileShape(sums, counts, n - 1);
    }
  }

  /** The profile never exceeds one entry per hour of the target year, and it
      has exactly 8,760 entries only when every hour's key has a bucket. */
  lemma {:induction false} ProfileLength(sums: map<Key, Sums>, counts: map<Key, nat>, n: int)
    requires Averageable(sums, counts)
    requires 0 <= n <= HoursInYear
    ensures |ProfileUpTo(sums, counts, n)| <= n
    ensures |ProfileUpTo(sums, counts, n)| == n <==> forall i :: 0 <= i < n ==> HourKey(i) in sums
    decreases n
  {
    if n > 0 {
      ProfileLength(sums, counts, n - 1);
      if |ProfileUpTo(sums, counts, n)| == n {
        assert HourKey(n - 1) in sums;
      }
    }
  }

  /** The profile's entries are strictly chronological. */
  lemma {:induction false} ProfileChronological(sums: map<Key, Sums>, counts: map<Key, nat>)
    requires Averageable(sums, counts)
    ensures forall a, b :: 0 <= a < b < |Profile(sums, counts)| ==>
      TimeBefore(Profile(sums, counts)[a].time, Profile(sums, counts)[b].time)
  {
    var p := Profile(sums, counts);
    var hours := CoveredHours(sums, HoursInYear);
    ProfileShape(sums, counts, HoursInYear);
    CoveredHoursShape(sums, HoursInYear);
    forall a, b | 0 <= a < b < |p|
      ensures TimeBefore(p[a].time, p[b].time)
    {
      HourTimestampOrdered(hours[a], hours[b]);
    }
  }

  /** Exactly the hours whose key has a bucket get an entry, and that entry
      carries the bucket's means. */
  lemma {:induction false} ProfileEntryForHour(sums: map<Key, Sums>, counts: map<Key, nat>, i: int)
    requires Averageable(sums, counts)
    requires 0 <= i < HoursInYear
    ensures HourKey(i) in sums <==> exists k :: 0 <= k < |Profile(sums, counts)| && Profile(sums, counts)[k].time == HourTimestamp(i)
    ensures forall k :: 0 <= k < |Profile(sums, counts)| && Profile(sums, counts)[k].time == HourTimestamp(i) ==>
      HourKey(i) in sums && Profile(sums, counts)[k] == MeanRecord(sums, counts, i)
  {
    var p := Profile(sums, counts);
    var hours := CoveredHours(sums, HoursInYear);
    ProfileShape(sums, counts, HoursInYear);
    CoveredHoursShape(sums, HoursInYear);
    if HourKey(i) in sums {
      var k :| 0 <= k < |hours| && hours[k] == i;
      assert p[k].time == HourTimestamp(i);
    }
    forall k | 0 <= k < |p| && p[k].time == HourTimestamp(i)
      ensures HourKey(i) in sums && p[k] == MeanRecord(sums, counts, i)
    {
      HourTimestampInjective(hours[k], i);
    }
  }

  /** A bucket whose key no hour of the target year has (a February 29
      bucket, say) does not change the profile. */
  lemma {:induction false} UnvisitedBucketIgnored(sums: map<Key, Sums>, counts: map<Key, nat>, key: Key, n: int)
    requires Averageable(sums, counts)
    requires !ValidKey(key)
    requires 0 <= n <= HoursInYear
    ensures Averageable(sums - {key}, counts)
    ensures ProfileUpTo(sums, counts, n) == ProfileUpTo(sums - {key}, counts, n)
    decreases n
  {
    if n > 0 {
      UnvisitedBucketIgnored(sums, counts, key, n - 1);
    }
  }

  /** On the profile the calendar's dates come out ascending. */
  lemma {:induction false} ProfileCalendarAscending(sums: map<Key, Sums>, counts: map<Key, nat>, c: Conditions)
    requires Averageable(sums, counts)
    ensures forall a, b :: 0 <= a < b < |WindowSpec(Profile(sums, counts), c).calendar| ==>
      DateBefore(WindowSpec(Profile(sums, counts), c).calendar[a].date, WindowSpec(Profile(sums, counts), c).calendar[b].date)
  {
    var p := Profile(sums, counts);
    var times := MatchingTimes(p, c);
    var idx := MatchingIndices(p, c);
    ProfileChronological(sums, counts);
    MatchingSubsequence(p, c);
    assert Chronological(times) by {
      forall a, b | 0 <= a < b < |times|
        ensures TimeBefore(times[a], times[b])
      {
        assert idx[a] < idx[b];
      }
    }
    DayOrderAscending(times);
  }
}
