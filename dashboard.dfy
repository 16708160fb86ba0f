/**
 * The data flow of the dashboard page in `project.py` `main`: check the chosen date range, widen
 * it to whole days, run the three queries and pick the advice. What the page renders (map,
 * headings, number formatting, the chart itself) is reduced to the values it would show.
 */
module Dashboard {
  import opened Base
  import opened Clock
  import opened Json
  import opened ReadingStore
  import opened Queries
  import opened Advice

  /**
   * `start_date <= end_date` and the combination with `time.min` and `time.max`: the first
   * instant of the first day through the last microsecond of the last, or nothing for a range
   * that runs backwards.
   */
  function QueryWindow(first: Day, last: Day): (r: Option<(Instant, Instant)>)
    ensures r.None? <==> !DateLe(first, last)
    ensures r.Some? ==> r.value.0 == DayStart(first) && r.value.1 == DayEnd(last)
  {
    if DateLe(first, last) then Some((DayStart(first), DayEnd(last))) else None
  }

  /**
   * The normalised window selects exactly the readings stamped on a day from `first` through
   * `last`, both included, whatever their time of day.
   */
  lemma QueryWindowSelectsDays(store: Store, sensorId: string, first: Day, last: Day, doc: Value, t: Instant)
    requires DateLe(first, last)
    requires Timestamp(doc) == Some(Iso(t))
    ensures var w := QueryWindow(first, last).value;
      (doc in Window(store, sensorId, w.0, w.1))
        <==> (doc in Collection(store, CollectionName(sensorId)) && DateLe(first, t.date) && DateLe(t.date, last))
  {
    WindowMembership(store, sensorId, DayStart(first), DayEnd(last), doc, t);
    DayWindow(first, last, t);
  }

  /** What the page shows for one sensor and date range. */
  datatype Page =
    | RangeError
      // the error banner: the range runs backwards and no query is made
    | Crashed
      // a query raised, and the exception reaches the page
    | NoReadings(status: Value)
      // the status, then the note that the window holds no data
    | Report(status: Value, summary: Summary, advice: seq<string>, series: Series, chart: bool)
      // the status, the statistics, the advice, and the chart when the series has rows

  /**
   * The flow of `main` once a sensor and two dates are chosen. A range running backwards
   * shows only the error. Otherwise the page follows `compute_statistics`: nothing more when it
   * raises, the status alone for an empty window, and for a summary the status, the summary, the
   * advice for its averages and the window's time series, which then always has rows to chart.
   */
  method SensorPage(db: Database, sensorId: string, first: Day, last: Day) returns (page: Page)
    ensures page == RangeError <==> !DateLe(first, last)
    ensures DateLe(first, last) ==>
      var stats := ComputeStatistics(db.collections, sensorId, DayStart(first), DayEnd(last));
      && (page == Crashed <==> stats == Raised)
      && (stats == Ok(None) ==> page == NoReadings(GetSensorStatus(db.collections, sensorId)))
      && (stats.Ok? && stats.value.Some? ==>
        && page.Report?
        && page.status == GetSensorStatus(db.collections, sensorId)
        && page.summary == stats.value.value
        && page.advice == Recommendations(sensorId, page.summary.avgTemp, page.summary.avgHumidity)
        && |page.series.timestamps| == |Window(db.collections, sensorId, DayStart(first), DayEnd(last))| > 0
        && page.chart)
  {
    var window := QueryWindow(first, last);
    if window.None? {
      return RangeError;
    }
    var (startTime, endTime) := window.value;
    var stats := ComputeStatistics(db.collections, sensorId, startTime, endTime);
    if stats.Raised? {
      return Crashed;
    }
    var status := GetSensorStatus(db.collections, sensorId);
    if stats.value.None? {
      return NoReadings(status);
    }
    var summary := stats.value.value;
    var advice := GenerateRecommendations(sensorId, summary.avgTemp, summary.avgHumidity);
    SeriesWhenSummary(db.collections, sensorId, startTime, endTime);
    var series := GetTimeSeriesData(db, sensorId, startTime, endTime);
    page := if series.Ok? then Report(status, summary, advice, series.value, |series.value.timestamps| > 0) else Crashed;
  }
}
