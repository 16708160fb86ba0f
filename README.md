# Sensor telemetry over MQTT: a Dafny model

The system collects temperature and humidity readings from room sensors over MQTT and stores
them in a MongoDB database, one collection per sensor. A dashboard then queries a chosen
sensor over a chosen range of days. It shows the sensor's latest status, the statistics of the
readings (mean, minimum, maximum and standard deviation of each column) and threshold-based
advice, and it charts the time series. Two small MQTT programs sit beside it:

- a relay that adds up the comma-separated integers it receives and publishes the sum;
- a kitchen sensor node that reports its readings only when they change, and switches an LED
  on the commands `ledOn` and `ledOff`.

The model has one module per component:

| module | file | models |
|---|---|---|
| `Base` | base.dfy | optional values, bytes, the bytes of an ASCII literal |
| `Text` | text.dfy | `str.split` on one character and `join`; the character-by-character string order the store uses; zero-padded decimal fields; Python's `str(int)` and `int(str)` |
| `Clock` | clock.dfy | naive dates and datetimes, `isoformat()`, and the proof that ISO strings sort as the instants they spell |
| `Json` | json.dfy | decoded JSON values and dictionary access |
| `Mqtt` | mqtt.dfy | an MQTT client object that records its subscriptions and its published messages |
| `ReadingStore` | store.dfy | the database (a class holding a map from collection name to documents), `insert_one`, `find` with a `$gte`/`$lte` filter on `timestamp`, and `find_one` sorted by `timestamp` descending |
| `Ingestion` | ingestion.dfy | `on_connect` and `on_message` of the ingestion handler |
| `Statistics` | statistics.dfy | mean, minimum, maximum and population variance over exact reals |
| `Queries` | queries.dfy | `compute_statistics`, `get_sensor_status` and `get_time_series_data` |
| `Advice` | advice.dfy | `generate_recommendations` |
| `Dashboard` | dashboard.dfy | the date-range check, the widening to whole days, and which queries the page runs |
| `SumRelay` | sum_relay.dfy | the summing relay |
| `Kitchen` | kitchen.dfy | the kitchen node: its LED, its status and its publish-on-change loop |

The functions are written once but appear in several source files. The ingestion handler is in
`mqtt_handlers.py` and again at `project.py:23-43`. The three queries are in `db_operations.py`
and again at `project.py:52-121`. The advice rule is in `utils.py`, `db_operations.py:70-78`
and `project.py:123-131`. The table below cites one copy of each; the copies are identical in
behaviour.

Stateful code is imperative in the model:

- The database is a `class` whose `InsertOne` changes its map, or refuses the document.
- The MQTT client is a `class` whose `Subscribe` and `Publish` append to its recorded lists.
- The ingestion `on_message`, the relay's `on_message`, the time-series loop and the kitchen
  node's `main` loop are methods.
- Each of these methods is proved against a function of its inputs and old state. The
  properties of that function are proved as lemmas.

Library calls enter as parameters:

- `json.loads` after `decode('utf-8')`, `bytes.decode('utf-8')` and `ujson.dumps`. `None`
  stands for the exception the first two may raise.
- `datetime.now()` is the parameter `now`.
- The DHT22 readings and the messages `check_msg` delivers are the sequence of loop passes given
  to `Kitchen.Node.Run`.

## Model

| member | source | states |
|---|---|---|
| Base.AsciiBytes | sensor_kitchen.py:26-31 | a `b"..."` literal of ASCII text is the sequence of its character codes, one byte per character |
| Text.Split | sub_pub.py:13 | `split(sep)` gives one more piece than there are separators; no piece contains the separator; the first piece is a prefix of the string, followed by a separator if shorter |
| Text.JoinSplit | sub_pub.py:13 | joining the pieces of a split with the same separator gives back the original string |
| Text.SplitJoin | sub_pub.py:13 | splitting a join of separator-free pieces gives back the pieces |
| Text.SplitNoSeparator | mqtt_handlers.py:26 | a string without the separator splits into itself alone |
| Text.SplitAtFirst | mqtt_handlers.py:26 | splitting `a + sep + b` with `sep` not in `a` gives `a` followed by the pieces of `b` |
| Text.SplitTrailing | sub_pub.py:13 | a trailing separator adds exactly one empty piece at the end |
| Text.LexLeReflexive | db_operations.py:42 | the store's string order is reflexive |
| Text.LexLeTransitive | db_operations.py:42 | the store's string order is transitive |
| Text.LexLeTotal | db_operations.py:42 | any two strings are comparable |
| Text.LexLeAntisymmetric | db_operations.py:42 | strings ordered both ways are equal |
| Text.LexAppend | db_operations.py:15-19 | for strings that start with blocks of equal length, the blocks decide the comparison unless they are equal, and then the rests do |
| Text.Pad | mqtt_handlers.py:25 | a zero-padded field has exactly its width and only digits |
| Text.PadOrder | mqtt_handlers.py:25 | zero-padded fields of one width are equal, and sort, exactly as the numbers they spell |
| Text.DecimalDigits | sub_pub.py:21 | the decimal spelling of a natural number is non-empty and all digits, and canonical: it opens with `0` exactly when the number is 0, and is then `"0"` alone |
| Text.TrimStart | sub_pub.py:14 | stripping leading whitespace leaves a string that is empty or does not start with whitespace |
| Text.TrimStartDropsLeadingSpace | sub_pub.py:14 | what `int()` strips at the front is exactly a run of whitespace: the result is the rest of the string, unchanged |
| Text.TrimEnd | sub_pub.py:14 | stripping trailing whitespace leaves a string that is empty or does not end with whitespace |
| Text.TrimEndDropsTrailingSpace | sub_pub.py:14 | what `int()` strips at the end is exactly a run of whitespace: the result is the string before it, unchanged |
| Text.DecimalDigitsValue | sub_pub.py:14-21 | the spelling `str()` produces is accepted by `int()` and denotes the number spelled |
| Text.NothingToStrip | sub_pub.py:14 | `int()`'s stripping leaves a string that neither starts nor ends with whitespace unchanged |
| Text.ParseSigned | sub_pub.py:14 | `int()` of an optional minus sign followed by digit groups is the value of the digits, negated after a minus |
| Text.ParseFormat | sub_pub.py:14-21 | `int(str(n)) == n` for every integer `n`, without the interpreter's digit limit (see Left out) |
| Clock.FractionOrder | mqtt_handlers.py:25 | the fractional part `isoformat()` writes, empty at microsecond 0, sorts as the microseconds do |
| Clock.IsoOrder | db_operations.py:15-21 | the store's string comparison of two `isoformat()` stamps holds exactly when the first instant is not after the second |
| Clock.IsoInjective | mqtt_handlers.py:25 | distinct instants get distinct `isoformat()` stamps |
| Clock.DayWindow | project.py:186-188 | an instant lies between midnight of the first day and 23:59:59.999999 of the last exactly when its date lies in that range of days |
| Clock.IsoDayWindow | project.py:186-188 | the same range of days stated on the ISO strings the store compares |
| Json.Get | db_operations.py:22 | `doc[key]` has a value exactly when `doc` is an object holding `key`, and that value is the one stored under `key` |
| ReadingStore.Database.InsertOne | mqtt_handlers.py:27-29 | `insert_one` appends the document to its named collection, creating it if missing, and changes no other collection; it refuses, changing nothing, exactly a document whose `_id` is an array or already stored there |
| ReadingStore.InsertKeepsIdsUnique | mqtt_handlers.py:29 | the unique `_id` index holds before and after every insert |
| ReadingStore.Find | db_operations.py:21 | `find` returns only documents whose string stamp lies in the inclusive range, each matching document as often as it is stored, and nothing else |
| ReadingStore.FindAppend | db_operations.py:21 | a document appended to a collection appears at the end of a `find`'s result exactly when it matches the filter |
| ReadingStore.Latest | db_operations.py:42 | `find_one` sorted by stamp returns nothing exactly for an empty collection, and otherwise a stored document |
| ReadingStore.LatestIsMaximal | db_operations.py:42 | no stored document sorts after the one `find_one` returns |
| ReadingStore.LatestAfterNewerAppend | db_operations.py:42 | a document appended with a stamp greater than every stored one is the one `find_one` returns |
| Mqtt.Client.Subscribe | mqtt_handlers.py:15-19 | subscribing appends the topics to the client's subscriptions and publishes nothing |
| Mqtt.Client.Publish | sub_pub.py:21 | publishing appends one message with that topic, payload and QoS, and leaves the subscriptions unchanged |
| Ingestion.OnConnect | mqtt_handlers.py:13-19 | on connect the client subscribes to `room1/topic`, `room2/topic` and `kitchen/topic`, in that order and at QoS 0, and publishes nothing |
| Ingestion.SensorId | mqtt_handlers.py:26 | the sensor id is a prefix of the topic without `/`, followed in the topic by `/` when shorter |
| Ingestion.SensorIdOfPath | mqtt_handlers.py:26 | for `id/rest` with no `/` in `id`, the sensor id is `id` |
| Ingestion.SensorIdOfPlainTopic | mqtt_handlers.py:26 | a topic without `/` is its own sensor id |
| Ingestion.SensorIdOfTopic | mqtt_handlers.py:26 | a sensor's topic `<id>/topic` maps back to `<id>` |
| Ingestion.SubscribedSensors | mqtt_handlers.py:15-26 | the three subscribed topics come from the sensors `room1`, `room2` and `kitchen` |
| Ingestion.Stamped | mqtt_handlers.py:24-28 | the stored document has the payload's keys plus `timestamp` and `position`, `timestamp` the ISO receipt time, `position` the sensor id, and every other field unchanged |
| Ingestion.Ingested | mqtt_handlers.py:21-32 | a payload that decodes to an object the store accepts appends its stamped document to `sensor_<id>` alone; any other payload, or one refused for its `_id`, leaves the store as it was |
| Ingestion.AcceptedUnlessIdClash | mqtt_handlers.py:24-32 | a decoded object is refused exactly when it carries an `_id` that is an array or already in the sensor's collection |
| Ingestion.IngestKeepsIdsUnique | mqtt_handlers.py:21-32 | handling a message keeps every collection's `_id`s unique |
| Ingestion.OnMessage | mqtt_handlers.py:21-32 | the handler's effect on the database is exactly `Ingested`: one insert into the sensor's collection, or none when decoding fails, yields no object or the insert raises |
| Ingestion.NoDeduplication | mqtt_handlers.py:29 | the same message without `_id` handled twice is stored twice; with an `_id`, the second handling stores nothing |
| Statistics.Min | db_operations.py:31-32 | `np.min` of a non-empty column is one of its values and bounds all of them from below |
| Statistics.Max | db_operations.py:33-34 | `np.max` of a non-empty column is one of its values and bounds all of them from above |
| Statistics.SumBetween | db_operations.py:29-30 | values between two bounds add up to between `n` times each bound |
| Statistics.MeanBetween | db_operations.py:29-30 | the average of values between two bounds lies between them |
| Statistics.MeanBetweenMinAndMax | db_operations.py:29-34 | `min <= mean <= max` for every non-empty column |
| Statistics.SquaredDeviationsNonNegative | db_operations.py:35-36 | the sum of squared deviations is non-negative and zero exactly when every value equals the centre |
| Statistics.VarianceNonNegative | db_operations.py:35-36 | the population variance behind `np.std` is never negative |
| Statistics.VarianceZeroIffConstant | db_operations.py:35-36 | the population variance is zero exactly when the column is constant |
| Queries.Readings | db_operations.py:22-26 | the readings of a cursor exist exactly when every document has numeric `data.temp` and `data.humidity`, and are then those of the documents, in order |
| Queries.WindowEmpty | db_operations.py:21-24 | the window is empty exactly when no stored document of the sensor has a stamp in the range |
| Queries.ComputeStatistics | db_operations.py:13-38 | `compute_statistics` returns normally exactly when every document in the window has numeric readings, and returns `None` exactly when no stored document of the sensor has a stamp in the window |
| Queries.SummaryBounds | db_operations.py:28-37 | the summary of any non-empty list of readings describes it: each min and max is a reading and bounds all of them, each mean lies between them, each variance is non-negative and zero exactly for a constant column |
| Queries.StatisticsOfWindow | db_operations.py:13-38 | a summary `compute_statistics` returns comes from a non-empty window, is that of the window's readings, and describes them |
| Queries.WindowMembership | db_operations.py:15-21 | a document stamped at `t` is in the window exactly when it is stored for the sensor and `start <= t <= end`, so both ends count |
| Queries.WindowAfterIngest | mqtt_handlers.py:25-29 | a reading the store accepts at `now` joins the end of every window containing `now`; no other window changes, and a refused one joins none |
| Queries.StampingKeepsReading | mqtt_handlers.py:25-28 | stamping does not change a payload's `data` reading |
| Queries.GetSensorStatus | db_operations.py:40-46 | `'No Data'` for an empty collection; otherwise the `status` of a stored document no other sorts after, or `'Unknown'` if it has none |
| Queries.StatusDefaults | db_operations.py:44-46 | the status is `'No Data'` exactly when the collection is empty or the latest document's status is itself `'No Data'`, and `'Unknown'` exactly when there is a latest document whose status is missing or `'Unknown'` |
| Queries.StatusAfterNewerIngest | db_operations.py:40-46 | after ingesting a reading later than every stored one, the status is that reading's `status`, or `'Unknown'`; a reading refused for its `_id` leaves the status as it was |
| Queries.Columns | db_operations.py:59-68 | the append loop returns three columns as long as the cursor with each row's `timestamp`, `data.humidity` and `data.temp` copied unchanged, and raises exactly when some document lacks those fields |
| Queries.GetTimeSeriesData | db_operations.py:48-68 | `get_time_series_data` returns the columns of the window's documents, raising exactly when one lacks the `data` fields, and every timestamp in it is a string within the window; it does not change the store |
| Queries.SeriesWhenSummary | project.py:196-217 | whenever `compute_statistics` returns a summary, the window over the same range is non-empty and every document in it has the fields the time series reads |
| Advice.AdviceDistinct | utils.py:10-14 | the cooling, dehumidifier and normal messages never coincide, whatever the sensor id |
| Advice.GenerateRecommendations | utils.py:7-15 | the list built by conditional appends is the advice rule's result |
| Advice.RecommendationsShape | utils.py:7-15 | one or two messages, two exactly when both strict thresholds are exceeded; cooling first when `avg_temp > 25`; the dehumidifier message last when `avg_humidity > 60`; each present exactly when its threshold is exceeded; the normal message present exactly when neither is, and then alone |
| Dashboard.QueryWindow | project.py:186-188 | a backward range gives no window; otherwise the window runs from midnight of the first day to 23:59:59.999999 of the last |
| Dashboard.QueryWindowSelectsDays | project.py:186-190 | the widened window selects exactly the stored readings stamped on a day from the first through the last |
| Dashboard.SensorPage | project.py:186-236 | a backward range shows only the error; otherwise the page follows `compute_statistics`: a crash when it raises, the status alone for an empty window, and for a summary the status, the summary, the advice for its averages and a non-empty time series of the window's length, charted |
| SumRelay.OnConnect | sub_pub.py:4-6 | on connect the relay subscribes to `exo1` at QoS 0 |
| SumRelay.ParseAll | sub_pub.py:14 | the list comprehension succeeds exactly when `int()` accepts every field, and then yields each field's value in order |
| SumRelay.Numbers | sub_pub.py:12-14 | a message yields one integer more than it has commas |
| SumRelay.Replies | sub_pub.py:9-23 | one message handled gives at most one reply, exactly one when the payload decodes and every field parses, on `exo1_result` at QoS 1, whose payload is the decimal spelling of the sum of the message's integers |
| SumRelay.OnMessage | sub_pub.py:9-23 | the handler appends exactly its replies to the client's outbox and subscribes to nothing |
| SumRelay.EmptyFieldRejected | sub_pub.py:13-14 | the empty message and any message ending in a comma publish nothing |
| SumRelay.JsonArrayRejected | sub_pub.py:12-21 | a message opening with `[`, as a JSON array such as `json.dumps([2, 5, 6])` does, publishes nothing |
| SumRelay.NoCommaInSpelling | sub_pub.py:13 | `str(n)` never contains a comma |
| SumRelay.SpellingsParse | sub_pub.py:14 | parsing the spellings of integers gives back those integers |
| SumRelay.SumOfJoined | sub_pub.py:12-21 | sending integers joined by commas makes the relay publish the decimal spelling of their sum |
| Kitchen.CommandSpelling | sensor_kitchen.py:26-31 | the two command constants are the bytes of `ledOn` and `ledOff` |
| Kitchen.LedIgnoresOtherMessages | sensor_kitchen.py:32-33 | messages other than the two commands leave the LED as it was |
| Kitchen.LedFollowsLastCommand | sensor_kitchen.py:23-33 | the LED shows what the last `ledOn` or `ledOff` asked for |
| Kitchen.ChangesProperties | sensor_kitchen.py:60-77 | no more publications than reports; no report published twice in a row; the first publication not empty; every publication one of the reports; `prev_weather` equal to the latest report unless every report so far was empty |
| Kitchen.SteadyReportPublishedOnce | sensor_kitchen.py:71-77 | a report that never changes is published once |
| Kitchen.Node.constructor | sensor_kitchen.py:14-21 | at start-up the LED is off and the status is `Disconnected` |
| Kitchen.Node.MqttCallback | sensor_kitchen.py:23-33 | `ledOn` sets the LED to 1, `ledOff` sets it to 0, and any other payload leaves it unchanged |
| Kitchen.Node.Pass | sensor_kitchen.py:62-80 | one pass publishes the serialised reading exactly when it differs from `prev_weather`, updates `prev_weather` only then, and handles the delivered message, if any |
| Kitchen.Node.Run | sensor_kitchen.py:45-82 | after the passes the node has subscribed once to `kitchen/topic`, its status is `Connected`, its outbox has gained exactly the changed reports in order, and its LED is what the delivered messages left it at |

## Left out

- The dashboard's rendering is left out: the map, headings, number formatting and the plot
  itself. `Dashboard.SensorPage` reduces the page to the values it would show. The
  `sensor_positions` table and the sensor selector are static data.
- Network connections, `loop_forever`, threads and `load_dotenv` are left out. The broker is
  replaced by the recorded subscriptions and published messages of `Mqtt.Client`.
- `print` output is left out.
- `json.loads`, `bytes.decode('utf-8')` and `ujson.dumps` are parameters, because they are
  library code. The model assumes nothing about them beyond determinism.
- Wi-Fi start-up, DHT22 reads, `time.sleep` and the GPIO pin are hardware.
  - `Kitchen.Node.Run` models the endless `while True` loop over any finite sequence of passes.
  - Each pass delivers at most one message to `mqtt_callback`, which is what one `check_msg`
    call handles.
- `Statistics.Variance`: reals are exact. The model does not capture the float rounding of
  `np.mean`/`np.std`, nor the square root in `np.std`. The summary's variance fields are the
  squares of the standard deviations the source reports.
- `Queries.ComputeStatistics` raises (`Raised`) on every `temp` or `humidity` value that is
  not a single number. numpy accepts more:
  - it coerces booleans to 0 and 1;
  - when every reading holds a numeric list of the same length, it reduces over all the
    elements (readings `[20, 30]` give mean 25, minimum 20, maximum 30, deviation 5).
  The model raises in both cases.
- `Json.Value` holds numbers as exact reals, so the `NaN`, `Infinity` and `-Infinity` that
  `json.loads` accepts have no counterpart; statistics over such readings are not modelled.
- `Text.ParseInt` does not model the non-ASCII whitespace and Unicode digits Python's `int()`
  also accepts. It covers the six ASCII whitespace characters `int()` strips (space, tab, line
  feed, vertical tab, form feed, carriage return), an optional sign, and ASCII digits in
  underscore-separated groups.
- `Text.ParseInt` does not model the interpreter's limit on integer string conversion
  (4300 digits by default, adjustable with `sys.set_int_max_str_digits`). Above it `int()`
  raises; the model's integers are unbounded, so a longer field parses.
- `SumRelay.Replies` does not model that limit either. A field longer than the limit, or a
  sum whose decimal spelling is longer, makes `int()` or `str()` raise and the relay publish
  nothing; the model publishes the sum.
- `ReadingStore.Find` models the store's type bracketing only as far as the string bounds
  need it: a document whose `timestamp` is not a string never matches a string range. Orders
  among the other BSON types are not modelled.
- `ReadingStore.Latest` sorts every non-string or missing stamp below all strings. The store's
  BSON order does so for null, missing fields and numbers, but puts objects, arrays, booleans
  and dates above strings. No stored document reaches that case, since `on_message` always
  writes a string stamp. Among documents with equal stamps the model returns the earliest
  stored; the store does not promise that tie-break.
- `Queries.GetSensorStatus` is not modelled returning `'No Data'` for an empty stored
  document. Python would, because an empty dict is falsy, but every document `on_message`
  stores has at least `timestamp` and `position`.
- The ObjectId the store gives a document without `_id` is not modelled; it never equals a
  JSON value, so it never clashes.
- `Ingestion.Ingested` models the insert refusals that depend on `_id` only: a repeated or
  array `_id`. The store also refuses an integer outside signed 64 bits, a NUL character in a
  key and a document over 16 MiB; the model stores those. It compares `_id` objects as
  unordered maps, while the store compares their fields in order. A failure of the database
  itself (an outage) is not modelled either.
- The ingestion handler stores any JSON object without checking its shape, so a malformed
  reading surfaces later as a raised query. The model returns documents in insertion order; the
  store promises no order for an unsorted `find`.
- `Dashboard.SensorPage` runs its queries on one snapshot of the store. In the program the
  ingestion handler runs in its own thread, so a reading can be inserted between
  `compute_statistics` and `get_time_series_data`; the model does not capture that
  interleaving.
- Collection names the database rejects (`InvalidName`, for a sensor id holding `$`, `..` or
  a NUL character, or ending in `.`) are not modelled. No subscribed topic produces one.
- `app.py` (the LED control page), `pub_numbers.py`, `result_sub.py` and `plant_model.py` are
  not part of this model. The first is UI around a publish, the second is concurrency around
  publish acknowledgements, the third only prints, and the fourth loads a foreign ML model.
  The list `pub_numbers.py` sends is `json.dumps` output, which opens with `[`; the relay
  publishes nothing for it (`SumRelay.JsonArrayRejected`).
