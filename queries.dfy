/**
 * The three read-only queries of `db_operations.py` (repeated in `project.py`) over the reading
 * store: `compute_statistics`, `get_sensor_status` and `get_time_series_data`.
 *
 * None of them writes: the first two are functions of the store, and the third is a method
 * with no `modifies` clause. A `KeyError` or `TypeError` the source lets escape (a document in
 * the window without `data`, without `humidity` or `temp`, or with a non-numeric reading handed
 * to numpy) is the `Raised` result.
 */
module Queries {
  import opened Base
  import opened Text
  import opened Clock
  import opened Json
  import opened ReadingStore
  import opened Statistics
  import opened Ingestion

  datatype Result<T> = Ok(value: T) | Raised

  /** The documents a query over `[start, end]` sees, in cursor (insertion) order. */
  function Window(store: Store, sensorId: string, start: Instant, end: Instant): seq<Value>
  {
    Find(Collection(store, CollectionName(sensorId)), Iso(start), Iso(end))
  }

  /** A document's `doc['data']['temp']` and `doc['data']['humidity']` when both are numbers. */
  datatype Reading = Reading(temp: real, humidity: real)

  function ReadingOf(doc: Value): Option<Reading>
  {
    match Get(doc, "data")
    case Some(data) =>
      (match (Get(data, "temp"), Get(data, "humidity"))
       case (Some(Num(t)), Some(Num(h))) => Some(Reading(t, h))
       case _ => None)
    case None => None
  }

  /** The readings of all documents, in order, when every one of them has one. */
  function Readings(docs: seq<Value>): (rs: Option<seq<Reading>>)
    ensures rs.Some? <==> forall i :: 0 <= i < |docs| ==> ReadingOf(docs[i]).Some?
    ensures rs.Some? ==> |rs.value| == |docs| && forall i :: 0 <= i < |docs| ==> ReadingOf(docs[i]) == Some(rs.value[i])
  {
    if docs == [] then Some([])
    else
      var init, last := docs[..|docs| - 1], docs[|docs| - 1];
      match (Readings(init), ReadingOf(last))
      case (Some(rs), Some(r)) => Some(rs + [r])
      case _ => None
  }

  function Temps(rs: seq<Reading>): (ts: seq<real>)
    ensures |ts| == |rs| && forall i :: 0 <= i < |rs| ==> ts[i] == rs[i].temp
  {
    seq(|rs|, i requires 0 <= i < |rs| => rs[i].temp)
  }

  function Humidities(rs: seq<Reading>): (hs: seq<real>)
    ensures |hs| == |rs| && forall i :: 0 <= i < |rs| ==> hs[i] == rs[i].humidity
  {
    seq(|rs|, i requires 0 <= i < |rs| => rs[i].humidity)
  }

  /** The dictionary `compute_statistics` returns; the `var` fields are the squares of its `std` fields. */
  datatype Summary = Summary(
    avgHumidity: real, avgTemp: real,
    minHumidity: real, minTemp: real,
    maxHumidity: real, maxTemp: real,
    varHumidity: real, varTemp: real)

  function Summarize(rs: seq<Reading>): Summary
    requires |rs| > 0
  {
    var hs, ts := Humidities(rs), Temps(rs);
    Summary(Mean(hs), Mean(ts), Min(hs), Min(ts), Max(hs), Max(ts), Variance(hs), Variance(ts))
  }

  /** The window is empty exactly when no stored document of the sensor has a stamp inside it. */
  lemma WindowEmpty(store: Store, sensorId: string, start: Instant, end: Instant)
    ensures Window(store, sensorId, start, end) == []
        <==> forall d :: d in Collection(store, CollectionName(sensorId)) ==> !InRange(d, Iso(start), Iso(end))
  {
    var w := Window(store, sensorId, start, end);
    var docs := Collection(store, CollectionName(sensorId));
    if w != [] {
      assert w[0] in docs by { assert multiset(w)[w[0]] > 0; }
    }
    forall d | d in docs && InRange(d, Iso(start), Iso(end)) ensures w != [] {
      assert multiset(w)[d] > 0;
    }
  }

  /**
   * `compute_statistics`: `None` when no document of the sensor falls in the window, a summary
   * of the window's readings when every document in it has one, and an escaping exception otherwise.
   */
  function ComputeStatistics(store: Store, sensorId: string, start: Instant, end: Instant): (r: Result<Option<Summary>>)
    ensures var w := Window(store, sensorId, start, end);
      r.Ok? <==> forall i :: 0 <= i < |w| ==> ReadingOf(w[i]).Some?
    ensures r == Ok(None) <==>
      forall d :: d in Collection(store, CollectionName(sensorId)) ==> !InRange(d, Iso(start), Iso(end))
  {
    WindowEmpty(store, sensorId, start, end);
    match Readings(Window(store, sensorId, start, end))
    case None => Raised
    case Some(rs) => if rs == [] then Ok(None) else Ok(Some(Summarize(rs)))
  }

  /**
   * What a summary says about the readings it was computed from: each minimum and maximum is
   * one of the readings and bounds all of them, each average lies between them, and each
   * variance is non-negative and zero exactly for a constant column.
   */
  predicate Describes(s: Summary, rs: seq<Reading>)
    requires |rs| > 0
  {
    && s.minTemp <= s.avgTemp <= s.maxTemp
    && s.minHumidity <= s.avgHumidity <= s.maxHumidity
    && (forall i :: 0 <= i < |rs| ==> s.minTemp <= rs[i].temp <= s.maxTemp)
    && (forall i :: 0 <= i < |rs| ==> s.minHumidity <= rs[i].humidity <= s.maxHumidity)
    && (exists i :: 0 <= i < |rs| && rs[i].temp == s.minTemp)
    && (exists i :: 0 <= i < |rs| && rs[i].temp == s.maxTemp)
    && (exists i :: 0 <= i < |rs| && rs[i].humidity == s.minHumidity)
    && (exists i :: 0 <= i < |rs| && rs[i].humidity == s.maxHumidity)
    && s.varTemp >= 0.0 && s.varHumidity >= 0.0
    && (s.varTemp == 0.0 <==> forall i :: 0 <= i < |rs| ==> rs[i].temp == rs[0].temp)
    && (s.varHumidity == 0.0 <==> forall i :: 0 <= i < |rs| ==> rs[i].humidity == rs[0].humidity)
  }

  /** The summary of any non-empty list of readings describes it. */
  lemma SummaryBounds(rs: seq<Reading>)
    requires |rs| > 0
    ensures Describes(Summarize(rs), rs)
  {
    var hs, ts := Humidities(rs), Temps(rs);
    MeanBetweenMinAndMax(hs);
    MeanBetweenMinAndMax(ts);
    VarianceNonNegative(hs);
    VarianceNonNegative(ts);
    VarianceZeroIffConstant(hs);
    VarianceZeroIffConstant(ts);
    var s := Summarize(rs);
    assert s.minTemp in ts && s.maxTemp in ts && s.minHumidity in hs && s.maxHumidity in hs;
  }

  /**
   * A summary `compute_statistics` returns is that of the readings of the documents in the
   * window, of which there is at least one, and describes them.
   */
  lemma StatisticsOfWindow(store: Store, sensorId: string, start: Instant, end: Instant)
    requires ComputeStatistics(store, sensorId, start, end).Ok?
    requires ComputeStatistics(store, sensorId, start, end).value.Some?
    ensures var s, w := ComputeStatistics(store, sensorId, start, end).value.value, Window(store, sensorId, start, end);
      && |w| > 0 && Readings(w).Some?
      && s == Summarize(Readings(w).value)
      && Describes(s, Readings(w).value)
  {
    SummaryBounds(Readings(Window(store, sensorId, start, end)).value);
  }

  /**
   * A document stamped with the ISO spelling of `t` is in the window exactly when it is stored
   * for the sensor and `start <= t <= end`; in particular both ends of the window are included.
   */
  lemma WindowMembership(store: Store, sensorId: string, start: Instant, end: Instant, doc: Value, t: Instant)
    requires Timestamp(doc) == Some(Iso(t))
    ensures doc in Window(store, sensorId, start, end)
        <==> doc in Collection(store, CollectionName(sensorId)) && LessEq(start, t) && LessEq(t, end)
  {
    var w := Window(store, sensorId, start, end);
    assert doc in w <==> multiset(w)[doc] > 0;
    IsoOrder(start, t);
    IsoOrder(t, end);
  }

  /**
   * What `on_message` stores at `now` joins every window that contains `now`, and no other; a
   * payload the store refuses for its `_id` joins none.
   */
  lemma WindowAfterIngest(store: Store, topic: string, decoded: Option<Value>, now: Instant, start: Instant, end: Instant)
    requires Storable(decoded)
    ensures var id := SensorId(topic);
      Window(Ingested(store, topic, decoded, now), id, start, end)
        == Window(store, id, start, end)
          + (if Accepted(store, topic, decoded, now) && LessEq(start, now) && LessEq(now, end)
             then [Stamped(decoded.value.fields, now, id)] else [])
  {
    var id := SensorId(topic);
    var doc := Stamped(decoded.value.fields, now, id);
    FindAppend(Collection(store, CollectionName(id)), doc, Iso(start), Iso(end));
    IsoOrder(start, now);
    IsoOrder(now, end);
  }

  /** Stamping leaves the reading of a payload as it was: `data` is neither `timestamp` nor `position`. */
  lemma StampingKeepsReading(fields: map<string, Value>, now: Instant, sensorId: string)
    ensures ReadingOf(Stamped(fields, now, sensorId)) == ReadingOf(Obj(fields))
  {
    assert "data" != "timestamp" && "data" != "position";
  }

  /** `doc.get('status', 'Unknown')`. */
  function StatusOf(doc: Value): Value
  {
    match Get(doc, "status")
    case Some(s) => s
    case None => Str("Unknown")
  }

  /**
   * `get_sensor_status`: `'No Data'` for an empty collection; otherwise the status of a document
   * no other stored document sorts after by `timestamp`.
   */
  function GetSensorStatus(store: Store, sensorId: string): (r: Value)
    ensures Collection(store, CollectionName(sensorId)) == [] ==> r == Str("No Data")
    ensures var docs := Collection(store, CollectionName(sensorId));
      docs != [] ==>
        exists doc :: doc in docs && r == StatusOf(doc) && forall d :: d in docs ==> StampLe(Timestamp(d), Timestamp(doc))
  {
    var docs := Collection(store, CollectionName(sensorId));
    match Latest(docs)
    case None => Str("No Data")
    case Some(doc) =>
      LatestIsMaximal(docs);
      StatusOf(doc)
  }

  /**
   * The two defaults are told apart: `'No Data'` comes back exactly when the collection is empty
   * or the latest document itself carries that status, and `'Unknown'` never for an empty one.
   */
  lemma StatusDefaults(store: Store, sensorId: string)
    ensures var docs := Collection(store, CollectionName(sensorId));
      (GetSensorStatus(store, sensorId) == Str("No Data"))
        <==> (docs == [] || Get(Latest(docs).value, "status") == Some(Str("No Data")))
    ensures var docs := Collection(store, CollectionName(sensorId));
      (GetSensorStatus(store, sensorId) == Str("Unknown"))
        <==> (docs != [] && Get(Latest(docs).value, "status") in {None, Some(Str("Unknown"))})
  {
  }

  /**
   * After `on_message` stores a reading stamped later than every stored one, the sensor's
   * status is that reading's `status`, or `'Unknown'` when it has none; when the store refuses
   * the reading for its `_id`, the status stays as it was.
   */
  lemma StatusAfterNewerIngest(store: Store, topic: string, decoded: Option<Value>, now: Instant)
    requires Storable(decoded)
    requires forall d :: d in Collection(store, CollectionName(SensorId(topic))) ==>
      Timestamp(d).Some? && LexLe(Timestamp(d).value, Iso(now)) && Timestamp(d).value != Iso(now)
    ensures Accepted(store, topic, decoded, now) ==>
      GetSensorStatus(Ingested(store, topic, decoded, now), SensorId(topic))
        == if "status" in decoded.value.fields then decoded.value.fields["status"] else Str("Unknown")
    ensures !Accepted(store, topic, decoded, now) ==>
      GetSensorStatus(Ingested(store, topic, decoded, now), SensorId(topic)) == GetSensorStatus(store, SensorId(topic))
  {
    if Accepted(store, topic, decoded, now) {
      var id := SensorId(topic);
      var docs := Collection(store, CollectionName(id));
      var doc := Stamped(decoded.value.fields, now, id);
      var after := Ingested(store, topic, decoded, now);
      assert Collection(after, CollectionName(id)) == docs + [doc];
      assert Timestamp(doc) == Some(Iso(now));
      assert forall d :: d in docs ==> StampLe(Timestamp(d), Timestamp(doc)) && Timestamp(d) != Timestamp(doc);
      LatestAfterNewerAppend(docs, doc);
      assert GetSensorStatus(after, id) == StatusOf(doc);
      assert "status" != "timestamp" && "status" != "position";
    }
  }

  /** The three parallel columns of the `DataFrame` `get_time_series_data` returns. */
  datatype Series = Series(timestamps: seq<Value>, humidity: seq<Value>, temp: seq<Value>)

  /** `doc['data']['humidity']` and `doc['data']['temp']` exist, whatever their values. */
  predicate HasSeriesFields(doc: Value)
  {
    Get(doc, "data").Some? && Get(Get(doc, "data").value, "humidity").Some? && Get(Get(doc, "data").value, "temp").Some?
  }

  /** `doc['data'][key]` for `key` one of `humidity` and `temp`. */
  function DataField(doc: Value, key: string): Value
    requires HasSeriesFields(doc) && key in {"humidity", "temp"}
  {
    doc.fields["data"].fields[key]
  }

  /**
   * The loop of `get_time_series_data` over a cursor: one row per document, in order, with its
   * `timestamp`, `data.humidity` and `data.temp` copied unchanged; a document without the
   * `data` fields makes it raise.
   */
  method Columns(cursor: seq<Value>) returns (r: Result<Series>)
    requires forall i :: 0 <= i < |cursor| ==> Get(cursor[i], "timestamp").Some?
    ensures r.Ok? <==> forall i :: 0 <= i < |cursor| ==> HasSeriesFields(cursor[i])
    ensures r.Ok? ==>
      && |r.value.timestamps| == |cursor| && |r.value.humidity| == |cursor| && |r.value.temp| == |cursor|
      && forall i :: 0 <= i < |cursor| ==>
        && Some(r.value.timestamps[i]) == Get(cursor[i], "timestamp")
        && r.value.humidity[i] == DataField(cursor[i], "humidity")
        && r.value.temp[i] == DataField(cursor[i], "temp")
  {
    var timestamps, humidity, temp := [], [], [];
    var i := 0;
    while i < |cursor|
      invariant 0 <= i <= |cursor|
      invariant forall k :: 0 <= k < i ==> HasSeriesFields(cursor[k])
      invariant |timestamps| == i && |humidity| == i && |temp| == i
      invariant forall k :: 0 <= k < i ==>
        && Some(timestamps[k]) == Get(cursor[k], "timestamp")
        && humidity[k] == DataField(cursor[k], "humidity")
        && temp[k] == DataField(cursor[k], "temp")
    {
      var doc := cursor[i];
      timestamps := timestamps + [doc.fields["timestamp"]];
      if !HasSeriesFields(doc) {
        return Raised;
      }
      var data := doc.fields["data"];
      humidity := humidity + [data.fields["humidity"]];
      temp := temp + [data.fields["temp"]];
      i := i + 1;
    }
    return Ok(Series(timestamps, humidity, temp));
  }

  /**
   * `get_time_series_data`: the columns of the window's documents, read without changing the
   * store; every timestamp in the result lies within the window.
   */
  method GetTimeSeriesData(db: Database, sensorId: string, start: Instant, end: Instant) returns (r: Result<Series>)
    ensures var w := Window(db.collections, sensorId, start, end);
      r.Ok? <==> forall i :: 0 <= i < |w| ==> HasSeriesFields(w[i])
    ensures var w := Window(db.collections, sensorId, start, end);
      r.Ok? ==>
        && |r.value.timestamps| == |w| && |r.value.humidity| == |w| && |r.value.temp| == |w|
        && forall i :: 0 <= i < |w| ==>
          && Some(r.value.timestamps[i]) == Get(w[i], "timestamp")
          && r.value.humidity[i] == DataField(w[i], "humidity")
          && r.value.temp[i] == DataField(w[i], "temp")
    ensures r.Ok? ==> forall i :: 0 <= i < |r.value.timestamps| ==>
      r.value.timestamps[i].Str? && LexLe(Iso(start), r.value.timestamps[i].s) && LexLe(r.value.timestamps[i].s, Iso(end))
  {
    var cursor := Window(db.collections, sensorId, start, end);
    r := Columns(cursor);
    if r.Ok? {
      forall i | 0 <= i < |r.value.timestamps|
        ensures r.value.timestamps[i].Str? && LexLe(Iso(start), r.value.timestamps[i].s) && LexLe(r.value.timestamps[i].s, Iso(end))
      {
        assert InRange(cursor[i], Iso(start), Iso(end));
      }
    }
  }

  /** Whenever `compute_statistics` returns a summary, the time series over the same window has rows. */
  lemma SeriesWhenSummary(store: Store, sensorId: string, start: Instant, end: Instant)
    requires ComputeStatistics(store, sensorId, start, end).Ok?
    requires ComputeStatistics(store, sensorId, start, end).value.Some?
    ensures var w := Window(store, sensorId, start, end);
      |w| > 0 && forall i :: 0 <= i < |w| ==> HasSeriesFields(w[i])
  {
    var w := Window(store, sensorId, start, end);
    assert Readings(w).Some?;
    assert |w| > 0;
  }
}
