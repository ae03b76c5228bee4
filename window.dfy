/** The window evaluator: scans a sequence of hourly records against the
    operating thresholds, collects the matching timestamps, and builds the
    per-date calendar and the throughput total. */
module Window {
  import opened Calendar
  import opened Climatology

  /** The thresholds and the linear rate of a working-hours request. */
  datatype Conditions = Conditions(minTemp: real, maxWind: real, maxPrecip: real, printSpeed: real)

  /** One calendar entry: a date and its number of working hours. */
  datatype DayHours = DayHours(date: Date, hours: nat)

  /** What both working-hours handlers return. */
  datatype WindowResult = WindowResult(totalHours: nat, totalOutput: real, calendar: seq<DayHours>)

  /** The working-hour predicate, inclusive at every threshold; the same one
      is applied to raw observations and to profile means. */
  predicate Matches(r: HourlyRecord, c: Conditions) {
    r.temperature >= c.minTemp && r.windSpeed <= c.maxWind && r.precipitation <= c.maxPrecip
  }

  /** The timestamps of the matching records, in scan order. */
  function MatchingTimes(s: seq<HourlyRecord>, c: Conditions): seq<Timestamp>
    decreases |s|
  {
    if s == [] then []
    else
      var p := MatchingTimes(s[..|s| - 1], c);
      if Matches(s[|s| - 1], c) then p + [s[|s| - 1].time] else p
  }

  /** The positions of the matching records, in scan order. */
  function MatchingIndices(s: seq<HourlyRecord>, c: Conditions): seq<int>
    decreases |s|
  {
    if s == [] then []
    else
      var p := MatchingIndices(s[..|s| - 1], c);
      if Matches(s[|s| - 1], c) then p + [|s| - 1] else p
  }

  /** The number of timestamps of `times` that lie on date `d`. */
  function DayCount(times: seq<Timestamp>, d: Date): nat
    decreases |times|
  {
    if times == [] then 0
    else DayCount(times[..|times| - 1], d) + (if DateOf(times[|times| - 1]) == d then 1 else 0)
  }

  /** The dates of `times`, each once, in order of first appearance: the key
      order of the `day_summary` dictionary. */
  function DayOrder(times: seq<Timestamp>): seq<Date>
    decreases |times|
  {
    if times == [] then []
    else
      var p := DayOrder(times[..|times| - 1]);
      var d := DateOf(times[|times| - 1]);
      if d in p then p else p + [d]
  }

  /** The `calendar` list comprehension over the `day_summary` dictionary,
      given as its key order and its contents. */
  function BuildCalendar(days: seq<Date>, summary: map<Date, nat>): (cal: seq<DayHours>)
    requires forall d :: d in days ==> d in summary
    ensures |cal| == |days|
  {
    seq(|days|, k requires 0 <= k < |days| => DayHours(days[k], summary[days[k]]))
  }

  /** The calendar of a list of matching timestamps. */
  function CalendarOf(times: seq<Timestamp>): seq<DayHours> {
    var days := DayOrder(times);
    seq(|days|, k requires 0 <= k < |days| => DayHours(days[k], DayCount(times, days[k])))
  }

  /** The reference result of evaluating `s` against `c`. */
  function WindowSpec(s: seq<HourlyRecord>, c: Conditions): WindowResult {
    ResultOf(MatchingTimes(s, c), c)
  }

  /** The result reported for the matching timestamps `times`. */
  function ResultOf(times: seq<Timestamp>, c: Conditions): WindowResult {
    WindowResult(|times|, |times| as real * c.printSpeed, CalendarOf(times))
  }

  /** The sum of the hours of a calendar. */
  function TotalHours(cal: seq<DayHours>): int
    decreases |cal|
  {
    if cal == [] then 0 else TotalHours(cal[..|cal| - 1]) + cal[|cal| - 1].hours
  }

  /** Pairwise strictly chronological. */
  predicate Chronological(times: seq<Timestamp>) {
    forall a, b :: 0 <= a < b < |times| ==> TimeBefore(times[a], times[b])
  }

  predicate DistinctDates(days: seq<Date>) {
    forall a, b :: 0 <= a < b < |days| ==> days[a] != days[b]
  }

  /** `days` and `summary` are the insertion-ordered `day_summary`
      dictionary after the timestamps `times` were counted. */
  ghost predicate Tallied(times: seq<Timestamp>, days: seq<Date>, summary: map<Date, nat>) {
    && days == DayOrder(times)
    && (forall d :: d in summary <==> d in days)
    && (forall d :: d in summary ==> summary[d] == DayCount(times, d))
  }

  /** `day_summary[day] += 1` on a `defaultdict(int)`: a date seen for the
      first time is appended to the key order with count one. */
  lemma {:induction false} TallyStep(times: seq<Timestamp>, days: seq<Date>, summary: map<Date, nat>, t: Timestamp)
    requires Tallied(times, days, summary)
    ensures var day := DateOf(t);
      Tallied(times + [t],
              if day in summary then days else days + [day],
              summary[day := (if day in summary then summary[day] else 0) + 1])
  {
    var after := times + [t];
    assert after[..|after| - 1] == times;
    DayOrderMembers(times, DateOf(t));
  }

  /** The closing lines of both working-hours handlers: `total_hours`,
      `total_output` and the `calendar` comprehension over `day_summary`. */
  method Summarize(workingHours: seq<Timestamp>, days: seq<Date>, daySummary: map<Date, nat>, c: Conditions)
    returns (result: WindowResult)
    requires Tallied(workingHours, days, daySummary)
    ensures result == ResultOf(workingHours, c)
  {
    var totalHours := |workingHours|;
    var totalOutput := totalHours as real * c.printSpeed;
    var calendar := BuildCalendar(days, daySummary);
    assert calendar == CalendarOf(workingHours);
    result := WindowResult(totalHours, totalOutput, calendar);
  }

  /** `working_hours.append(t)` followed by `day_summary[t.date()] += 1`,
      the bookkeeping both working-hours loops do for a matching hour. */
  method RecordWorkingHour(workingHours: seq<Timestamp>, days: seq<Date>, daySummary: map<Date, nat>, t: Timestamp)
    returns (workingHours': seq<Timestamp>, days': seq<Date>, daySummary': map<Date, nat>)
    requires Tallied(workingHours, days, daySummary)
    ensures workingHours' == workingHours + [t]
    ensures Tallied(workingHours', days', daySummary')
  {
    TallyStep(workingHours, days, daySummary, t);
    workingHours' := workingHours + [t];
    var day := DateOf(t);
    var seen := if day in daySummary then daySummary[day] else 0;
    days' := if day in daySummary then days else days + [day];
    daySummary' := daySummary[day := seen + 1];
  }

  /** `get_working_hours` on the records of one location: one pass that
      appends every matching timestamp and increments its date's entry in the
      insertion-ordered `day_summary`. */
  method GetWorkingHours(data: seq<HourlyRecord>, c: Conditions) returns (result: WindowResult)
    ensures result == WindowSpec(data, c)
    ensures data == [] ==> result.totalHours == 0 && result.calendar == [] && result.totalOutput == 0.0
  {
    var workingHours: seq<Timestamp> := [];
    var days: seq<Date> := [];
    var daySummary: map<Date, nat> := map[];
    for i := 0 to |data|
      invariant workingHours == MatchingTimes(data[..i], c)
      invariant Tallied(workingHours, days, daySummary)
    {
      var w := data[i];
      assert data[..i + 1][..i] == data[..i];
      if Matches(w, c) {
        workingHours, days, daySummary := RecordWorkingHour(workingHours, days, daySummary, w.time);
      }
    }
    assert data[..|data|] == data;
    result := Summarize(workingHours, days, daySummary, c);
  }

  /** The matching timestamps are the subsequence of the scanned records that
      satisfy the predicate: taken in scan order, each matching record once,
      no other. */
  lemma {:induction false} MatchingSubsequence(s: seq<HourlyRecord>, c: Conditions)
    ensures |MatchingTimes(s, c)| == |MatchingIndices(s, c)|
    ensures forall k :: 0 <= k < |MatchingIndices(s, c)| ==>
      0 <= MatchingIndices(s, c)[k] < |s|
      && Matches(s[MatchingIndices(s, c)[k]], c)
      && MatchingTimes(s, c)[k] == s[MatchingIndices(s, c)[k]].time
    ensures forall a, b :: 0 <= a < b < |MatchingIndices(s, c)| ==> MatchingIndices(s, c)[a] < MatchingIndices(s, c)[b]
    ensures forall j :: 0 <= j < |s| && Matches(s[j], c) ==> j in MatchingIndices(s, c)
    decreases |s|
  {
    if s != [] {
      var p := s[..|s| - 1];
      MatchingSubsequence(p, c);
      forall j | 0 <= j < |s| && Matches(s[j], c)
        ensures j in MatchingIndices(s, c)
      {
        if j < |s| - 1 {
          assert s[j] == p[j];
        }
      }
    }
  }

  /** A date has a positive count exactly when some timestamp lies on it. */
  lemma {:induction false} DayCountPositive(times: seq<Timestamp>, d: Date)
    ensures DayCount(times, d) > 0 <==> exists j :: 0 <= j < |times| && DateOf(times[j]) == d
    decreases |times|
  {
    if times != [] {
      var p := times[..|times| - 1];
      DayCountPositive(p, d);
      if DayCount(p, d) > 0 {
        var j :| 0 <= j < |p| && DateOf(p[j]) == d;
        assert times[j] == p[j];
      }
      if exists j :: 0 <= j < |times| && DateOf(times[j]) == d {
        var j :| 0 <= j < |times| && DateOf(times[j]) == d;
        if j < |p| {
          assert p[j] == times[j];
        }
      }
    }
  }

  /** A date is listed exactly when it has a positive count. */
  lemma {:induction false} DayOrderMembers(times: seq<Timestamp>, d: Date)
    ensures d in DayOrder(times) <==> DayCount(times, d) > 0
    decreases |times|
  {
    if times != [] {
      DayOrderMembers(times[..|times| - 1], d);
    }
  }

  /** No date is listed twice. */
  lemma {:induction false} DayOrderDistinct(times: seq<Timestamp>)
    ensures DistinctDates(DayOrder(times))
    decreases |times|
  {
    if times != [] {
      DayOrderDistinct(times[..|times| - 1]);
    }
  }

  /** Dates are listed in order of first appearance: the list built from any
      prefix of the scan is a prefix of the final list. */
  lemma {:induction false} DayOrderFirstSeen(times: seq<Timestamp>, j: int)
    requires 0 <= j <= |times|
    ensures DayOrder(times[..j]) <= DayOrder(times)
    decreases |times|
  {
    if j < |times| {
      var p := times[..|times| - 1];
      assert times[..j] == p[..j];
      DayOrderFirstSeen(p, j);
    } else {
      assert times[..j] == times;
    }
  }

  /** On a chronological scan the calendar's dates come out ascending. */
  lemma {:induction false} DayOrderAscending(times: seq<Timestamp>)
    requires Chronological(times)
    ensures forall a, b :: 0 <= a < b < |DayOrder(times)| ==> DateBefore(DayOrder(times)[a], DayOrder(times)[b])
    decreases |times|
  {
    if times != [] {
      var p := times[..|times| - 1];
      var t := times[|times| - 1];
      var e := DateOf(t);
      DayOrderAscending(p);
      var order := DayOrder(p);
      if e !in order {
        forall a | 0 <= a < |order|
          ensures DateBefore(order[a], e)
        {
          var d := order[a];
          DayOrderMembers(p, d);
          DayCountPositive(p, d);
          var j :| 0 <= j < |p| && DateOf(p[j]) == d;
          assert TimeBefore(times[j], times[|times| - 1]);
        }
      }
    }
  }

  lemma {:induction false} TotalOfCounts(times: seq<Timestamp>, days: seq<Date>)
    ensures TotalHours(seq(|days|, k requires 0 <= k < |days| => DayHours(days[k], DayCount(times, days[k]))))
      == SumOfCounts(times, days)
    decreases |days|
  {
    if days != [] {
      var q := days[..|days| - 1];
      var cal := seq(|days|, k requires 0 <= k < |days| => DayHours(days[k], DayCount(times, days[k])));
      var calq := seq(|q|, k requires 0 <= k < |q| => DayHours(q[k], DayCount(times, q[k])));
      assert cal[..|cal| - 1] == calq;
      TotalOfCounts(times, q);
    }
  }

  /** The sum of the counts of `days`. */
  function SumOfCounts(times: seq<Timestamp>, days: seq<Date>): int
    decreases |days|
  {
    if days == [] then 0 else SumOfCounts(times, days[..|days| - 1]) + DayCount(times, days[|days| - 1])
  }

  /** One more timestamp on date `e` adds one to the sum for every listing of `e`. */
  lemma {:induction false} SumOfCountsStep(times: seq<Timestamp>, t: Timestamp, days: seq<Date>)
    ensures SumOfCounts(times + [t], days) == SumOfCounts(times, days) + multiset(days)[DateOf(t)]
    decreases |days|
  {
    if days != [] {
      var q := days[..|days| - 1];
      assert days == q + [days[|days| - 1]];
      assert (times + [t])[..|times|] == times;
      SumOfCountsStep(times, t, q);
    }
  }

  lemma {:induction false} DistinctOnce(days: seq<Date>, e: Date)
    requires DistinctDates(days)
    ensures multiset(days)[e] == if e in days then 1 else 0
    decreases |days|
  {
    if days != [] {
      var q := days[..|days| - 1];
      assert days == q + [days[|days| - 1]];
      DistinctOnce(q, e);
    }
  }

  /** The calendar's hours add up to the number of matching timestamps. */
  lemma {:induction false} CalendarSumsToTotal(times: seq<Timestamp>)
    ensures TotalHours(CalendarOf(times)) == |times|
  {
    TotalOfCounts(times, DayOrder(times));
    OrderCountsSum(times);
  }

  lemma {:induction false} OrderCountsSum(times: seq<Timestamp>)
    ensures SumOfCounts(times, DayOrder(times)) == |times|
    decreases |times|
  {
    if times != [] {
      var p := times[..|times| - 1];
      var t := times[|times| - 1];
      var e := DateOf(t);
      assert times == p + [t];
      OrderCountsSum(p);
      SumOfCountsStep(p, t, DayOrder(p));
      DayOrderDistinct(p);
      DistinctOnce(DayOrder(p), e);
      if e !in DayOrder(p) {
        DayOrderMembers(p, e);
        assert SumOfCounts(times, DayOrder(p) + [e]) == SumOfCounts(times, DayOrder(p)) + DayCount(times, e);
      }
    }
  }

  /** The totals promised by both working-hours handlers: `total_hours` is
      the number of matching records and the sum of the calendar;
      `total_output` is `total_hours * print_speed`, so a zero rate gives zero;
      an empty scan gives an empty result. */
  lemma {:induction false} WindowTotals(s: seq<HourlyRecord>, c: Conditions)
    ensures WindowSpec(s, c).totalHours == |MatchingIndices(s, c)|
    ensures WindowSpec(s, c).totalHours == TotalHours(WindowSpec(s, c).calendar)
    ensures WindowSpec(s, c).totalOutput == WindowSpec(s, c).totalHours as real * c.printSpeed
    ensures c.printSpeed == 0.0 ==> WindowSpec(s, c).totalOutput == 0.0
    ensures s == [] ==> WindowSpec(s, c) == WindowResult(0, 0.0, [])
  {
    MatchingSubsequence(s, c);
    CalendarSumsToTotal(MatchingTimes(s, c));
  }

  /** Date `d` has an entry in calendar `cal`. */
  predicate Listed(cal: seq<DayHours>, d: Date) {
    exists k :: 0 <= k < |cal| && cal[k].date == d
  }

  /** Some record of `s` on date `d` is a working hour. */
  predicate MatchedOn(s: seq<HourlyRecord>, c: Conditions, d: Date) {
    exists j :: 0 <= j < |s| && Matches(s[j], c) && DateOf(s[j].time) == d
  }

  /** The calendar lists each date at most once, every listed date has at
      least one working hour, and a date is listed exactly when some matching
      record lies on it. */
  lemma {:induction false} CalendarEntries(s: seq<HourlyRecord>, c: Conditions)
    ensures forall a, b :: 0 <= a < b < |WindowSpec(s, c).calendar| ==>
      WindowSpec(s, c).calendar[a].date != WindowSpec(s, c).calendar[b].date
    ensures forall k :: 0 <= k < |WindowSpec(s, c).calendar| ==> WindowSpec(s, c).calendar[k].hours >= 1
    ensures forall d :: Listed(WindowSpec(s, c).calendar, d) <==> MatchedOn(s, c, d)
  {
    var times := MatchingTimes(s, c);
    var cal := WindowSpec(s, c).calendar;
    var days := DayOrder(times);
    DayOrderDistinct(times);
    assert forall a, b :: 0 <= a < b < |cal| ==> cal[a].date == days[a] && cal[b].date == days[b];
    MatchingSubsequence(s, c);
    var idx := MatchingIndices(s, c);
    forall k | 0 <= k < |cal|
      ensures cal[k].hours >= 1
    {
      DayOrderMembers(times, days[k]);
    }
    forall d
      ensures Listed(cal, d) <==> MatchedOn(s, c, d)
    {
      DayOrderMembers(times, d);
      DayCountPositive(times, d);
      if exists k :: 0 <= k < |cal| && cal[k].date == d {
        var k :| 0 <= k < |cal| && cal[k].date == d;
        assert days[k] == d;
        var m :| 0 <= m < |times| && DateOf(times[m]) == d;
        assert DateOf(s[idx[m]].time) == d;
      }
      if exists j :: 0 <= j < |s| && Matches(s[j], c) && DateOf(s[j].time) == d {
        var j :| 0 <= j < |s| && Matches(s[j], c) && DateOf(s[j].time) == d;
        assert j in idx;
        var m :| 0 <= m < |idx| && idx[m] == j;
        assert DateOf(times[m]) == d;
        assert d in days;
        var k :| 0 <= k < |days| && days[k] == d;
        assert cal[k].date == d;
      }
    }
  }

  /** A reading exactly at every threshold is a working hour. */
  lemma {:induction false} ThresholdsInclusive(r: HourlyRecord, c: Conditions)
    requires r.temperature == c.minTemp && r.windSpeed == c.maxWind && r.precipitation == c.maxPrecip
    ensures Matches(r, c)
  {
  }
}
