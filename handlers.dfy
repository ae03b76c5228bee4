/** The two forecast handlers around the core: each loads a location's
    records, refuses an empty record set, aggregates, and then either
    synthesises the profile or evaluates the printer's window over it.  The
    store query is a parameter; the one-off reload of the working-hours
    handler is a parameter too, since it reaches the network. */
module Handlers {
  import opened Calendar
  import opened Climatology
  import opened Window
  import opened Forecast

  /** The handlers' error responses. */
  datatype Error =
    | NoWeatherData      // 404: no records for the location
    | WeatherLoadFailed  // 500: the reload attempt raised

  datatype Result<T> = Ok(value: T) | Err(error: Error)

  /** What the one reload attempt of `forecast_working_hours` gives: the
      records the store holds after it, or a failure. */
  datatype Reload = Reloaded(records: seq<HourlyRecord>) | ReloadFailed

  /** The profile `generate_forecast` answers with for a non-empty record set. */
  function ForecastOf(data: seq<HourlyRecord>): seq<HourlyRecord> {
    Profile(SumsMap(data), CountsMap(data))
  }

  /** `generate_forecast`: not-found on an empty record set, otherwise the
      synthesised profile of the records' buckets. */
  method GenerateForecast(data: seq<HourlyRecord>) returns (r: Result<seq<HourlyRecord>>)
    ensures data == [] <==> r == Err(NoWeatherData)
    ensures data != [] ==> r == Ok(ForecastOf(data))
  {
    if data == [] {
      return Err(NoWeatherData);
    }
    var sums, counts := Aggregate(data);
    var forecast := Synthesize(sums, counts);
    return Ok(forecast);
  }

  /** `forecast_working_hours`: the reload failure and the still-empty store
      are errors; otherwise the window evaluation of the profile. */
  method ForecastWorkingHours(data: seq<HourlyRecord>, reload: Reload, c: Conditions) returns (r: Result<WindowResult>)
    ensures data == [] && reload.ReloadFailed? <==> r == Err(WeatherLoadFailed)
    ensures data == [] && reload == Reloaded([]) <==> r == Err(NoWeatherData)
    ensures data != [] ==> r == Ok(WindowSpec(ForecastOf(data), c))
    ensures data == [] && reload.Reloaded? && reload.records != [] ==>
      r == Ok(WindowSpec(ForecastOf(reload.records), c))
  {
    var records := data;
    if records == [] {
      if reload.ReloadFailed? {
        return Err(WeatherLoadFailed);
      }
      records := reload.records;
    }
    if records == [] {
      return Err(NoWeatherData);
    }
    var sums, counts := Aggregate(records);
    var result := EvaluateProfile(sums, counts, c);
    return Ok(result);
  }

  /** Every entry of the forecast is some hour of the target year whose
      (month, day, hour) some record has, and its values are the means of
      exactly the records with that key. */
  lemma {:induction false} ForecastMeansOfRecords(data: seq<HourlyRecord>, k: int)
    requires 0 <= k < |ForecastOf(data)|
    ensures exists i :: 0 <= i < HoursInYear && ForecastOf(data)[k].time == HourTimestamp(i)
    ensures forall i :: 0 <= i < HoursInYear && ForecastOf(data)[k].time == HourTimestamp(i) ==>
      && CountOf(data, HourKey(i)) >= 1
      && ForecastOf(data)[k].temperature == SumOf(data, HourKey(i)).temperature / CountOf(data, HourKey(i)) as real
      && ForecastOf(data)[k].windSpeed == SumOf(data, HourKey(i)).wind / CountOf(data, HourKey(i)) as real
      && ForecastOf(data)[k].precipitation == SumOf(data, HourKey(i)).precip / CountOf(data, HourKey(i)) as real
  {
    var sums, counts := SumsMap(data), CountsMap(data);
    var hours := CoveredHours(sums, HoursInYear);
    ProfileShape(sums, counts, HoursInYear);
    assert ForecastOf(data)[k].time == HourTimestamp(hours[k]);
    forall i | 0 <= i < HoursInYear && ForecastOf(data)[k].time == HourTimestamp(i)
      ensures CountOf(data, HourKey(i)) >= 1
      ensures ForecastOf(data)[k].temperature == SumOf(data, HourKey(i)).temperature / CountOf(data, HourKey(i)) as real
      ensures ForecastOf(data)[k].windSpeed == SumOf(data, HourKey(i)).wind / CountOf(data, HourKey(i)) as real
      ensures ForecastOf(data)[k].precipitation == SumOf(data, HourKey(i)).precip / CountOf(data, HourKey(i)) as real
    {
      HourTimestampInjective(hours[k], i);
    }
  }

  /** A January 15, 08:00 observation of year `y` with temperature `t`. */
  function Jan15At8(y: int, t: real): HourlyRecord {
    HourlyRecord(Timestamp(y, 1, 15, 8), t, 0.0, 0.0)
  }

  /** Ten years of January 15, 08:00 readings (2014 to 2023). */
  function TenYears(): seq<HourlyRecord> {
    [Jan15At8(2014, 5.0), Jan15At8(2015, 6.0), Jan15At8(2016, 7.0), Jan15At8(2017, 4.0), Jan15At8(2018, 5.0),
     Jan15At8(2019, 6.0), Jan15At8(2020, 7.0), Jan15At8(2021, 5.0), Jan15At8(2022, 6.0), Jan15At8(2023, 5.0)]
  }

  /** The temperatures of `data` added up in scan order. */
  function TemperatureTotal(data: seq<HourlyRecord>): real
    decreases |data|
  {
    if data == [] then 0.0 else TemperatureTotal(data[..|data| - 1]) + data[|data| - 1].temperature
  }

  /** When every record has key `key`, the bucket holds all of them. */
  lemma {:induction false} OneBucket(data: seq<HourlyRecord>, key: Key)
    requires forall j :: 0 <= j < |data| ==> BucketOf(data[j]) == key
    ensures CountOf(data, key) == |data|
    ensures SumOf(data, key).temperature == TemperatureTotal(data)
    decreases |data|
  {
    if data != [] {
      OneBucket(data[..|data| - 1], key);
    }
  }

  /** The ten readings fall into one bucket of ten samples, and the forecast
      for January 15, 2025, 08:00 carries their mean temperature 5.6. */
  lemma {:induction false} TenYearMean()
    ensures CountOf(TenYears(), Key(1, 15, 8)) == 10
    ensures exists k ::
      && 0 <= k < |ForecastOf(TenYears())|
      && ForecastOf(TenYears())[k].time == Timestamp(2025, 1, 15, 8)
      && ForecastOf(TenYears())[k].temperature == 5.6
  {
    var data := TenYears();
    var key := Key(1, 15, 8);
    var i := 14 * HoursPerDay + 8;
    assert HourKey(i) == key;
    assert data[0] in data;
    assert key in KeysOf(data);
    OneBucket(data, key);
    assert data[..1][..0] == data[..0];
    assert TemperatureTotal(data[..1]) == 5.0;
    assert data[..2][..1] == data[..1];
    assert TemperatureTotal(data[..2]) == 11.0;
    assert data[..3][..2] == data[..2];
    assert TemperatureTotal(data[..3]) == 18.0;
    assert data[..4][..3] == data[..3];
    assert TemperatureTotal(data[..4]) == 22.0;
    assert data[..5][..4] == data[..4];
    assert TemperatureTotal(data[..5]) == 27.0;
    assert data[..6][..5] == data[..5];
    assert TemperatureTotal(data[..6]) == 33.0;
    assert data[..7][..6] == data[..6];
    assert TemperatureTotal(data[..7]) == 40.0;
    assert data[..8][..7] == data[..7];
    assert TemperatureTotal(data[..8]) == 45.0;
    assert data[..9][..8] == data[..8];
    assert TemperatureTotal(data[..9]) == 51.0;
    assert data[..10][..9] == data[..9];
    assert TemperatureTotal(data[..10]) == 56.0;
    assert data[..10] == data;
    ProfileEntryForHour(SumsMap(data), CountsMap(data), i);
    var k :| 0 <= k < |ForecastOf(data)| && ForecastOf(data)[k].time == HourTimestamp(i);
  }
}
