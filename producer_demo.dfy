/**
 The producer script: for every row of the city table it conforms the
 latest air-pollution answer for that city and submits the encoded record
 to the message broker under the city's name; after the loop it drains the
 broker's queue.
 */
module ProducerDemo {
  import opened Values
  import opened Dicts
  import opened Cities
  import opened Conformance

  /** `for component in aq_comps: conformed_res[component] = aq_comps[component]`:
      every pollutant is assigned in the payload's order, so the record gains
      exactly what `SetAll` describes (`Dicts.SetAllKeys`, `Dicts.SetAllGet`). */
  method CopyComponents(conformed: Dict, aqComps: Dict) returns (r: Dict)
    requires Distinct(aqComps)
    ensures r == SetAll(conformed, aqComps)
  {
    r := conformed;
    var i := 0;
    while i < |aqComps|
      invariant 0 <= i <= |aqComps|
      invariant r == SetAll(conformed, aqComps[..i])
    {
      var component := aqComps[i].key;
      GetAt(aqComps, i);
      r := Set(r, component, Get(aqComps, component).value);
      assert aqComps[..i + 1][..i] == aqComps[..i];
      i := i + 1;
    }
    assert aqComps[..i] == aqComps;
  }

  /** `get_city_air_pollution`: turns the answer to the request for `lat`,
      `lon` into one flat record. The request is returned so that callers can
      see which coordinates were queried; `response` is how that request
      ended and `now` the clock reading taken for `ingested_date`. */
  method GetCityAirPollution(lat: Float, lon: Float, city: string, apiKey: string,
                             response: Response, now: int)
    returns (request: Request, conformed: Dict)
    requires WellFormed(response)
    ensures request == Request(lat, lon, apiKey)
    ensures Conforms(city, response, now, conformed)
  {
    request := Request(lat, lon, apiKey);
    if response.TimedOut? {
      return request, [Entry("Error", JStr(TimeoutMessage))];
    }
    if response.status != 200 {
      return request, [Entry("Error", JStr(response.text)), Entry("StatusCode", JInt(response.status))];
    }
    var res := response.json.value;
    conformed := [];
    conformed := Set(conformed, "city", JStr(city));
    conformed := Set(conformed, "lon", res.lon);
    conformed := Set(conformed, "lat", res.lat);
    conformed := Set(conformed, "air_quality_index", res.aqi);
    conformed := CopyComponents(conformed, res.components);
    ghost var components := conformed;
    conformed := Set(conformed, "observed_date", res.dt);
    conformed := Set(conformed, "ingested_date", JInt(now));
    DatesAssigned(components, res, now);
    assert conformed == Built(city, res, now);
    BuiltConforms(city, res, now, response.text);
  }

  datatype Message = Message(topic: string, key: string, value: Encoded)

  /** What the script asks of the broker client, in order. */
  datatype Event = Produced(message: Message) | Polled(timeout: int) | Flushed

  /** The broker client. Delivery happens off the script's thread and is not
      modelled; the client records the calls made on it, and whether every
      submitted message has been waited for. */
  class Producer {
    ghost var history: seq<Event>
    ghost var drained: bool

    constructor ()
      ensures history == [] && drained
    {
      history := [];
      drained := true;
    }

    /** Queue one message; delivery is asynchronous. */
    method Produce(topic: string, value: Encoded, key: string)
      modifies this
      ensures history == old(history) + [Produced(Message(topic, key, value))]
      ensures !drained
    {
      history := history + [Produced(Message(topic, key, value))];
      drained := false;
    }

    /** Serve delivery callbacks for up to `timeout`; some messages may still
        be outstanding afterwards. */
    method Poll(timeout: int)
      modifies this
      ensures history == old(history) + [Polled(timeout)]
      ensures drained == old(drained)
    {
      history := history + [Polled(timeout)];
    }

    /** Block until every queued message has been delivered or failed. */
    method Flush()
      modifies this
      ensures history == old(history) + [Flushed]
      ensures drained
    {
      history := history + [Flushed];
      drained := true;
    }
  }

  /** The argument of the `poll` call after the loop. */
  const PollTimeout := 10000

  /** The message submitted for one row: on the run's topic, keyed by the
      row's city, carrying the record conformed from that row's answer. */
  ghost predicate SubmittedFor(m: Message, topic: string, row: Row, response: Response, now: int)
    requires WellFormed(response)
  {
    && m.topic == topic
    && m.key == row.city
    && Conforms(row.city, response, now, m.value.fields)
  }

  /** The city loop of `main` and the drain after it. `responses[i]` is how
      the request made for row `i` ended and `clocks[i]` the clock reading
      taken while conforming it. */
  method Run(table: seq<Row>, topic: string, apiKey: string,
             responses: seq<Response>, clocks: seq<int>)
    returns (producer: Producer, requests: seq<Request>)
    requires |responses| == |table| && |clocks| == |table|
    requires forall i :: 0 <= i < |responses| ==> WellFormed(responses[i])
    ensures |producer.history| == |table| + 2
    ensures forall i :: 0 <= i < |table| ==>
      producer.history[i].Produced? &&
      SubmittedFor(producer.history[i].message, topic, table[i], responses[i], clocks[i])
    ensures producer.history[|table|] == Polled(PollTimeout)
    ensures producer.history[|table| + 1] == Flushed
    ensures producer.drained
    ensures |requests| == |table|
    ensures forall i :: 0 <= i < |table| ==>
      requests[i] == Request(LookupRow(table, i).lat, LookupRow(table, i).lon, apiKey)
  {
    producer := new Producer();
    requests := [];
    var i := 0;
    while i < |table|
      invariant 0 <= i <= |table|
      invariant |producer.history| == i && |requests| == i
      invariant forall j :: 0 <= j < i ==>
        producer.history[j].Produced? &&
        SubmittedFor(producer.history[j].message, topic, table[j], responses[j], clocks[j])
      invariant forall j :: 0 <= j < i ==>
        requests[j] == Request(LookupRow(table, j).lat, LookupRow(table, j).lon, apiKey)
    {
      var city := table[i].city;
      var row := FirstIndex(table, city);
      var lat, lon := table[row].lat, table[row].lon;
      var request, conformed := GetCityAirPollution(lat, lon, city, apiKey, responses[i], clocks[i]);
      var encoded := Dumps(conformed);
      producer.Produce(topic, encoded, city);
      requests := requests + [request];
      i := i + 1;
    }
    producer.Poll(PollTimeout);
    producer.Flush();
  }
}
