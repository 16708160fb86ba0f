/**
 * The summing relay of `sub_pub.py`: it listens on `exo1` for comma-separated integers and
 * publishes their sum on `exo1_result`.
 *
 * `msg.payload.decode('utf-8')` is library code; it enters as the parameter `utf8`, `None`
 * standing for the `UnicodeDecodeError` it may raise.
 */
module SumRelay {
  import opened Base
  import opened Text
  import opened Mqtt

  const RequestTopic: string := "exo1"
  const ResultTopic: string := "exo1_result"

  /** `on_connect`: `client.subscribe("exo1")`, at paho's default QoS 0. */
  method OnConnect(client: Client)
    modifies client
    ensures client.subscriptions == old(client.subscriptions) + [Subscription(RequestTopic, 0)]
    ensures client.outbox == old(client.outbox)
  {
    client.Subscribe([Subscription(RequestTopic, 0)]);
  }

  /** `[int(num) for num in fields]`: every field parsed, or `None` at the first that `int()` rejects. */
  function ParseAll(fields: seq<string>): (r: Option<seq<int>>)
    ensures r.Some? <==> forall i :: 0 <= i < |fields| ==> ParseInt(fields[i]).Some?
    ensures r.Some? ==> |r.value| == |fields| && forall i :: 0 <= i < |fields| ==> ParseInt(fields[i]) == Some(r.value[i])
  {
    if fields == [] then Some([])
    else
      var head, tail := ParseInt(fields[0]), ParseAll(fields[1..]);
      assert forall i :: 0 < i < |fields| ==> fields[i] == fields[1..][i - 1];
      if head.Some? && tail.Some? then Some([head.value] + tail.value) else None
  }

  /** Python's `sum` over a list of ints. */
  function Total(ns: seq<int>): int
  {
    if ns == [] then 0 else ns[0] + Total(ns[1..])
  }

  /** The integers a message carries: its comma-separated fields, each parsed by `int()`; one more than its commas. */
  function Numbers(message: string): (r: Option<seq<int>>)
    ensures r.Some? ==> |r.value| == Count(message, ',') + 1
  {
    ParseAll(Split(message, ','))
  }

  /** The payload published in reply to a decoded message: `str(sum(numbers))`, or nothing. */
  function SumReply(message: string): Option<string>
  {
    match Numbers(message)
    case Some(ns) => Some(FormatInt(Total(ns)))
    case None => None
  }

  /** The messages `on_message` publishes for one raw payload: exactly one reply, or none. */
  function Replies(payload: seq<byte>, utf8: seq<byte> -> Option<string>): (out: seq<Message>)
    ensures |out| <= 1
    ensures |out| == 1 <==> utf8(payload).Some? && Numbers(utf8(payload).value).Some?
    ensures |out| == 1 ==> out[0].topic == ResultTopic && out[0].qos == 1
    ensures |out| == 1 ==> out[0].payload == FormatInt(Total(Numbers(utf8(payload).value).value))
  {
    match utf8(payload)
    case None => []
    case Some(message) =>
      match SumReply(message)
      case Some(reply) => [Message(ResultTopic, reply, 1)]
      case None => []
  }

  /** `on_message`: decode, split, parse, add up and publish; any exception is swallowed. */
  method OnMessage(client: Client, payload: seq<byte>, utf8: seq<byte> -> Option<string>)
    modifies client
    ensures client.outbox == old(client.outbox) + Replies(payload, utf8)
    ensures client.subscriptions == old(client.subscriptions)
  {
    var decoded := utf8(payload);
    if decoded.None? {
      return;
    }
    var message := decoded.value;
    var numbers := ParseAll(Split(message, ','));
    if numbers.None? {
      return;
    }
    var result := Total(numbers.value);
    client.Publish(ResultTopic, FormatInt(result), 1);
  }

  /** The empty message and a message ending in a comma hold an empty field, which `int()` rejects. */
  lemma EmptyFieldRejected(message: string)
    ensures SumReply("") == None
    ensures SumReply(message + ",") == None
  {
    EmptyIsNotAnInt();
    assert Split("", ',') == [""];
    SplitTrailing(message, ',');
    var fields := Split(message + ",", ',');
    assert fields[|fields| - 1] == "";
  }

  /**
   * A message opening with `[`, as every JSON array does, gets no reply: its first field is not an
   * integer. The `json.dumps` list that the repository's own number publisher sends is such a message.
   */
  lemma JsonArrayRejected(message: string)
    requires |message| > 0 && message[0] == '['
    ensures SumReply(message) == None
  {
    var fields := Split(message, ',');
    assert |fields[0]| > 0 && fields[0][0] == '[';
    NoIntStartingWith(fields[0]);
  }

  /** Joining the decimal spellings of integers with commas and relaying them publishes their sum. */
  lemma {:induction false} SumOfJoined(ns: seq<int>)
    requires |ns| > 0
    ensures SumReply(Join(Spellings(ns), ',')) == Some(FormatInt(Total(ns)))
  {
    SpellingsParse(ns);
    SplitJoin(Spellings(ns), ',');
  }

  /** `[str(n) for n in ns]`. */
  function Spellings(ns: seq<int>): (ss: seq<string>)
    ensures |ss| == |ns| && forall i :: 0 <= i < |ns| ==> ss[i] == FormatInt(ns[i])
  {
    if ns == [] then [] else [FormatInt(ns[0])] + Spellings(ns[1..])
  }

  lemma {:induction false} SpellingsParse(ns: seq<int>)
    ensures forall i :: 0 <= i < |ns| ==> ',' !in Spellings(ns)[i]
    ensures ParseAll(Spellings(ns)) == Some(ns)
  {
    if ns != [] {
      SpellingsParse(ns[1..]);
      ParseFormat(ns[0]);
      NoCommaInSpelling(ns[0]);
      assert Spellings(ns)[1..] == Spellings(ns[1..]);
      assert ns == [ns[0]] + ns[1..];
    }
  }

  lemma NoCommaInSpelling(n: int)
    ensures ',' !in FormatInt(n)
  {
    var m := if n < 0 then -n else n;
    var d := DecimalDigits(m);
    assert forall i :: 0 <= i < |d| ==> d[i] != ',';
  }
}
