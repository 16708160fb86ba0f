/**
 * The kitchen sensor node of `sensor_kitchen.py`: an LED switched by `ledOn`/`ledOff` commands,
 * and a loop that reports temperature and humidity to `kitchen/topic`, publishing a report only
 * when it differs from the last one published.
 *
 * The DHT22 readings and the messages `check_msg` delivers enter as a finite sequence of loop
 * iterations (`Tick`s); `ujson.dumps` enters as the parameter `dumps`.
 */
module Kitchen {
  import opened Base
  import opened Json
  import opened Mqtt

  const Topic: string := "kitchen/topic"

  /** `b"ledOn"` and `b"ledOff"`: the only payloads the node acts on. */
  const LedOnCommand: seq<byte> := [0x6C, 0x65, 0x64, 0x4F, 0x6E]
  const LedOffCommand: seq<byte> := [0x6C, 0x65, 0x64, 0x4F, 0x66, 0x66]

  lemma CommandSpelling()
    ensures LedOnCommand == AsciiBytes("ledOn") && LedOffCommand == AsciiBytes("ledOff")
  {
    var on, off := AsciiBytes("ledOn"), AsciiBytes("ledOff");
    assert on[0] as int == 'l' as int && on[1] as int == 'e' as int && on[2] as int == 'd' as int;
    assert on[3] as int == 'O' as int && on[4] as int == 'n' as int;
    assert off[0] as int == 'l' as int && off[1] as int == 'e' as int && off[2] as int == 'd' as int;
    assert off[3] as int == 'O' as int && off[4] as int == 'f' as int && off[5] as int == 'f' as int;
  }

  /** The LED level after `mqtt_callback` handled `msg`: on, off, or as it was. */
  function LedAfter(led: int, msg: seq<byte>): int
  {
    if msg == LedOnCommand then 1 else if msg == LedOffCommand then 0 else led
  }

  /** The LED level after a series of messages, handled in order. */
  function LedAfterAll(led: int, msgs: seq<seq<byte>>): int
  {
    if msgs == [] then led else LedAfter(LedAfterAll(led, msgs[..|msgs| - 1]), msgs[|msgs| - 1])
  }

  predicate IsCommand(msg: seq<byte>)
  {
    msg == LedOnCommand || msg == LedOffCommand
  }

  lemma CommandsDiffer()
    ensures LedOnCommand != LedOffCommand
  {
    assert |LedOnCommand| == 5 && |LedOffCommand| == 6;
  }

  /** Messages other than the two commands leave the LED as it was. */
  lemma {:induction false} LedIgnoresOtherMessages(led: int, msgs: seq<seq<byte>>)
    requires forall j :: 0 <= j < |msgs| ==> !IsCommand(msgs[j])
    ensures LedAfterAll(led, msgs) == led
  {
    if msgs != [] {
      var init := msgs[..|msgs| - 1];
      assert forall j :: 0 <= j < |init| ==> init[j] == msgs[j];
      LedIgnoresOtherMessages(led, init);
    }
  }

  /** The LED shows what the last `ledOn` or `ledOff` among the messages asked for. */
  lemma {:induction false} LedFollowsLastCommand(led: int, msgs: seq<seq<byte>>, j: nat)
    requires j < |msgs| && IsCommand(msgs[j])
    requires forall k :: j < k < |msgs| ==> !IsCommand(msgs[k])
    ensures LedAfterAll(led, msgs) == if msgs[j] == LedOnCommand then 1 else 0
  {
    var init, last := msgs[..|msgs| - 1], msgs[|msgs| - 1];
    CommandsDiffer();
    if j < |msgs| - 1 {
      assert init[j] == msgs[j];
      assert forall k :: j < k < |init| ==> init[k] == msgs[k];
      LedFollowsLastCommand(led, init, j);
      assert !IsCommand(last);
    }
  }

  /** The object `main` serialises: `{"status": ..., "data": {"temp": ..., "humidity": ...}}`. */
  function WeatherReport(status: string, temp: real, humidity: real): Value
  {
    Obj(map["status" := Str(status), "data" := Obj(map["temp" := Num(temp), "humidity" := Num(humidity)])])
  }

  /** One pass of the `while True` loop: a measurement, then at most one message from `check_msg`. */
  datatype Tick = Tick(temp: real, humidity: real, incoming: Option<seq<byte>>)

  /** The serialised report of each pass, made once the node is connected. */
  function Reports(dumps: Value -> string, ticks: seq<Tick>): (rs: seq<string>)
    ensures |rs| == |ticks|
    ensures forall i :: 0 <= i < |ticks| ==> rs[i] == dumps(WeatherReport("Connected", ticks[i].temp, ticks[i].humidity))
  {
    seq(|ticks|, i requires 0 <= i < |ticks| => dumps(WeatherReport("Connected", ticks[i].temp, ticks[i].humidity)))
  }

  /** The messages handled after one more pass: the one `check_msg` delivers in it, if any. */
  function HandledAfter(handled: seq<seq<byte>>, tick: Tick): seq<seq<byte>>
  {
    handled + (if tick.incoming.Some? then [tick.incoming.value] else [])
  }

  /** The messages `check_msg` delivers, in order. */
  function Incoming(ticks: seq<Tick>): seq<seq<byte>>
  {
    if ticks == [] then [] else HandledAfter(Incoming(ticks[..|ticks| - 1]), ticks[|ticks| - 1])
  }

  /** What `prev_weather` holds after the given publications: the last of them, `""` before any. */
  function LastSent(sent: seq<string>): string
  {
    if sent == [] then "" else sent[|sent| - 1]
  }

  /** The publications after one more report: it is published when it differs from the last one. */
  function SentAfter(sent: seq<string>, report: string): seq<string>
  {
    if report != LastSent(sent) then sent + [report] else sent
  }

  /** The reports actually published: each one that differs from the last one published. */
  function Changes(reports: seq<string>): seq<string>
  {
    if reports == [] then [] else SentAfter(Changes(reports[..|reports| - 1]), reports[|reports| - 1])
  }

  /**
   * No report is published twice in a row and the first is not empty; every published report is one
   * of the reports made; and `prev_weather` always equals the latest report, unless every report
   * so far was the empty string.
   */
  lemma {:induction false} ChangesProperties(reports: seq<string>)
    ensures var sent := Changes(reports);
      && |sent| <= |reports|
      && (sent != [] ==> sent[0] != "")
      && (forall i :: 0 < i < |sent| ==> sent[i] != sent[i - 1])
      && (forall i :: 0 <= i < |sent| ==> sent[i] in reports)
      && (reports != [] ==> LastSent(sent) == reports[|reports| - 1] || (sent == [] && reports[|reports| - 1] == ""))
  {
    if reports != [] {
      var init := reports[..|reports| - 1];
      ChangesProperties(init);
      var sent := Changes(init);
      assert forall i :: 0 <= i < |sent| ==> sent[i] in init ==> sent[i] in reports;
    }
  }

  /** A steady, non-empty report is published once, however many passes repeat it. */
  lemma {:induction false} SteadyReportPublishedOnce(reports: seq<string>)
    requires |reports| > 0 && reports[0] != ""
    requires forall i :: 0 <= i < |reports| ==> reports[i] == reports[0]
    ensures Changes(reports) == [reports[0]]
  {
    if |reports| > 1 {
      var init := reports[..|reports| - 1];
      SteadyReportPublishedOnce(init);
    }
  }

  /** The published messages: each changed report to `kitchen/topic`, at umqtt's default QoS 0. */
  function Publications(sent: seq<string>): (ms: seq<Message>)
    ensures |ms| == |sent|
    ensures forall i :: 0 <= i < |sent| ==> ms[i] == Message(Topic, sent[i], 0)
  {
    seq(|sent|, i requires 0 <= i < |sent| => Message(Topic, sent[i], 0))
  }

  /** One more pass extends the reports, the publications and the handled messages by that pass alone. */
  lemma PassStep(dumps: Value -> string, ticks: seq<Tick>, i: nat)
    requires i < |ticks|
    ensures Changes(Reports(dumps, ticks[..i + 1]))
      == SentAfter(Changes(Reports(dumps, ticks[..i])), dumps(WeatherReport("Connected", ticks[i].temp, ticks[i].humidity)))
    ensures Incoming(ticks[..i + 1]) == HandledAfter(Incoming(ticks[..i]), ticks[i])
  {
    assert ticks[..i + 1][..i] == ticks[..i];
    var reports, r := Reports(dumps, ticks[..i]), dumps(WeatherReport("Connected", ticks[i].temp, ticks[i].humidity));
    assert Reports(dumps, ticks[..i + 1]) == reports + [r];
    assert (reports + [r])[..|reports|] == reports;
  }

  lemma OutboxStep(base: seq<Message>, sent: seq<string>, report: string)
    ensures base + Publications(SentAfter(sent, report))
      == base + Publications(sent) + (if report != LastSent(sent) then [Message(Topic, report, 0)] else [])
  {
    if report != LastSent(sent) {
      assert Publications(sent + [report]) == Publications(sent) + [Message(Topic, report, 0)];
    } else {
      assert Publications(sent) + [] == Publications(sent);
    }
  }

  lemma LedStep(led: int, handled: seq<seq<byte>>, tick: Tick)
    ensures LedAfterAll(led, HandledAfter(handled, tick))
      == if tick.incoming.Some? then LedAfter(LedAfterAll(led, handled), tick.incoming.value) else LedAfterAll(led, handled)
  {
    var next := HandledAfter(handled, tick);
    if tick.incoming.Some? {
      assert next[..|handled|] == handled;
    } else {
      assert next == handled;
    }
  }

  /** The node: the LED pin, the global `STATUS` and the MQTT client. */
  class Node {
    var led: int
    var status: string
    const client: Client
    const dumps: Value -> string

    /** Module start-up: the LED is switched off and the node is not yet connected. */
    constructor (client: Client, dumps: Value -> string)
      ensures led == 0 && status == "Disconnected"
      ensures this.client == client && this.dumps == dumps
    {
      led := 0;
      status := "Disconnected";
      this.client := client;
      this.dumps := dumps;
    }

    /** `mqtt_callback`: only the exact payloads `ledOn` and `ledOff` change the LED. */
    method MqttCallback(msg: seq<byte>)
      modifies this
      ensures led == LedAfter(old(led), msg)
      ensures status == old(status)
    {
      if msg == LedOnCommand {
        led := 1;
      } else if msg == LedOffCommand {
        led := 0;
      }
    }

    /**
     * One pass of the loop: serialise the reading with the current status, publish it when it
     * differs from `prevWeather`, then handle the message `check_msg` delivered, if any.
     * Returns the new `prev_weather`.
     */
    method Pass(tick: Tick, prevWeather: string) returns (next: string)
      modifies this, client
      ensures var message := dumps(WeatherReport(old(status), tick.temp, tick.humidity));
        && client.outbox == old(client.outbox) + (if message != prevWeather then [Message(Topic, message, 0)] else [])
        && next == (if message != prevWeather then message else prevWeather)
      ensures led == if tick.incoming.Some? then LedAfter(old(led), tick.incoming.value) else old(led)
      ensures status == old(status) && client.subscriptions == old(client.subscriptions)
    {
      var message := dumps(WeatherReport(status, tick.temp, tick.humidity));
      next := prevWeather;
      if message != prevWeather {
        client.Publish(Topic, message, 0);
        next := message;
      }
      if tick.incoming.Some? {
        MqttCallback(tick.incoming.value);
      }
    }

    /**
     * `main` after the Wi-Fi is up, run for the passes `ticks`: subscribe to `kitchen/topic`,
     * become `Connected`, then on each pass publish the report if it changed and handle any
     * incoming command.
     */
    method Run(ticks: seq<Tick>)
      modifies this, client
      ensures client.subscriptions == old(client.subscriptions) + [Subscription(Topic, 0)]
      ensures client.outbox == old(client.outbox) + Publications(Changes(Reports(dumps, ticks)))
      ensures status == "Connected"
      ensures led == LedAfterAll(old(led), Incoming(ticks))
    {
      client.Subscribe([Subscription(Topic, 0)]);
      status := "Connected";
      var prevWeather := "";
      ghost var sent: seq<string> := [];
      ghost var handled: seq<seq<byte>> := [];
      var i := 0;
      while i < |ticks|
        invariant 0 <= i <= |ticks|
        invariant client.subscriptions == old(client.subscriptions) + [Subscription(Topic, 0)]
        invariant sent == Changes(Reports(dumps, ticks[..i]))
        invariant client.outbox == old(client.outbox) + Publications(sent)
        invariant prevWeather == LastSent(sent)
        invariant status == "Connected"
        invariant handled == Incoming(ticks[..i])
        invariant led == LedAfterAll(old(led), handled)
      {
        var tick := ticks[i];
        ghost var report := dumps(WeatherReport("Connected", tick.temp, tick.humidity));
        PassStep(dumps, ticks, i);
        OutboxStep(old(client.outbox), sent, report);
        LedStep(old(led), handled, tick);
        prevWeather := Pass(tick, prevWeather);
        sent, handled := SentAfter(sent, report), HandledAfter(handled, tick);
        i := i + 1;
      }
      assert ticks[..i] == ticks;
    }
  }
}
