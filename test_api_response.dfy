/**
 The response test script: the same conformer as the producer script,
 copied into this file, and a city loop that conforms and encodes one record
 per row of the city table without submitting anything to a broker.
 */
module TestApiResponse {
  import opened Values
  import opened Dicts
  import opened Cities
  import opened Conformance

  /** `for component in aq_comps: conformed_res[component] = aq_comps[component]`:
      every pollutant is assigned in the payload's order, so the record gains
      exactly what `SetAll` describes (`Dicts.SetAllKeys`, `Dicts.SetAllGet`). */
  method CopyComponents(conformed: Dict, aqComps: Dict) returns (r: Dict)
    requires Distinct(aqComps)
    ensures r == SetAll(conformed, aqComps)
  {
    r := conformed;
    var i := 0;
    while i < |aqComps|
      invariant 0 <= i <= |aqComps|
      invariant r == SetAll(conformed, aqComps[..i])
    {
      var component := aqComps[i].key;
      GetAt(aqComps, i);
      r := Set(r, component, Get(aqComps, component).value);
      assert aqComps[..i + 1][..i] == aqComps[..i];
      i := i + 1;
    }
    assert aqComps[..i] == aqComps;
  }

  /** This script's own copy of `get_city_air_pollution`. It meets the same
      contract as the producer's copy, and the contract fixes the record
      (`Conformance.ConformsUnique`), so both copies return the same record
      for the same answer and clock reading. */
  method GetCityAirPollution(lat: Float, lon: Float, city: string, apiKey: string,
                             response: Response, now: int)
    returns (request: Request, conformed: Dict)
    requires WellFormed(response)
    ensures request == Request(lat, lon, apiKey)
    ensures Conforms(city, response, now, conformed)
  {
    request := Request(lat, lon, apiKey);
    if response.TimedOut? {
      return request, [Entry("Error", JStr(TimeoutMessage))];
    }
    if response.status != 200 {
      return request, [Entry("Error", JStr(response.text)), Entry("StatusCode", JInt(response.status))];
    }
    var res := response.json.value;
    conformed := [];
    conformed := Set(conformed, "city", JStr(city));
    conformed := Set(conformed, "lon", res.lon);
    conformed := Set(conformed, "lat", res.lat);
    conformed := Set(conformed, "air_quality_index", res.aqi);
    conformed := CopyComponents(conformed, res.components);
    ghost var components := conformed;
    conformed := Set(conformed, "observed_date", res.dt);
    conformed := Set(conformed, "ingested_date", JInt(now));
    DatesAssigned(components, res, now);
    assert conformed == Built(city, res, now);
    BuiltConforms(city, res, now, response.text);
  }

  /** The city loop of `main`: `responses[i]` is how the request made for
      row `i` ended and `clocks[i]` the clock reading taken while conforming
      it. Returns the requests made and the encoded records, one per row in
      row order. */
  method Run(table: seq<Row>, apiKey: string, responses: seq<Response>, clocks: seq<int>)
    returns (requests: seq<Request>, encoded: seq<Encoded>)
    requires |responses| == |table| && |clocks| == |table|
    requires forall i :: 0 <= i < |responses| ==> WellFormed(responses[i])
    ensures |encoded| == |table| && |requests| == |table|
    ensures forall i :: 0 <= i < |table| ==>
      Conforms(table[i].city, responses[i], clocks[i], encoded[i].fields)
    ensures forall i :: 0 <= i < |table| ==>
      requests[i] == Request(LookupRow(table, i).lat, LookupRow(table, i).lon, apiKey)
  {
    requests, encoded := [], [];
    var i := 0;
    while i < |table|
      invariant 0 <= i <= |table|
      invariant |encoded| == i && |requests| == i
      invariant forall j :: 0 <= j < i ==>
        Conforms(table[j].city, responses[j], clocks[j], encoded[j].fields)
      invariant forall j :: 0 <= j < i ==>
        requests[j] == Request(LookupRow(table, j).lat, LookupRow(table, j).lon, apiKey)
    {
      var city := table[i].city;
      var row := FirstIndex(table, city);
      var lat, lon := table[row].lat, table[row].lon;
      var request, conformed := GetCityAirPollution(lat, lon, city, apiKey, responses[i], clocks[i]);
      encoded := encoded + [Dumps(conformed)];
      requests := requests + [request];
      i := i + 1;
    }
  }
}
