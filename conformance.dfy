/**
 What `get_city_air_pollution` promises: the flat record it builds from one
 answer of the air-pollution endpoint, stated without reference to the order
 of assignments that builds it.
 */
module Conformance {
  import opened Values
  import opened Dicts

  /** The parameters the endpoint URL is built from. */
  datatype Request = Request(lat: Float, lon: Float, apiKey: string)

  /** The fields of a successful answer that the conformer reads:
      `coord.lon`, `coord.lat`, `list[0].main.aqi`, `list[0].components`
      and `list[0].dt`. */
  datatype Payload = Payload(lon: Json, lat: Json, aqi: Json, components: Dict, dt: Json)

  /** How the HTTP request ended: it timed out, or an answer came back with a
      status code and a body text; `json` is that body decoded, when it has
      the fields above. */
  datatype Response =
    | TimedOut
    | Answer(status: int, text: string, json: Option<Payload>)

  /** A status-200 answer carries a payload with the expected fields (the
      source raises otherwise: `KeyError` for a missing field, `IndexError`
      for an empty `list`, a JSON decoding error for a body that is not
      JSON); its components come from a JSON object, so no pollutant name
      occurs twice. */
  predicate WellFormed(response: Response)
  {
    response.Answer? && response.status == 200 ==>
      response.json.Some? && Distinct(response.json.value.components)
  }

  const TimeoutMessage := "Request timed out"

  /** The four header fields, in the order the conformer writes them first. */
  const HeaderKeys: seq<string> := ["city", "lon", "lat", "air_quality_index"]

  /** The two date fields, in the order the conformer writes them last. */
  const DateKeys: seq<string> := ["observed_date", "ingested_date"]

  /** The key order of a successful record: the header, then the pollutants
      that are not header names, then the dates that are not pollutant names
      (a pollutant named like a header field or a date keeps that field's
      position). */
  function ExpectedKeys(components: Dict): seq<string>
  {
    HeaderKeys + Without(KeyList(components), HeaderKeys) + Without(DateKeys, KeyList(components))
  }

  /** The value of header field `k` before any pollutant is copied. */
  function HeaderField(city: string, p: Payload, k: string): Option<Json>
  {
    if k == "city" then Some(JStr(city))
    else if k == "lon" then Some(p.lon)
    else if k == "lat" then Some(p.lat)
    else if k == "air_quality_index" then Some(p.aqi)
    else None
  }

  /** The value of field `k` in a successful record: the dates always win,
      then pollutant values, then the header values. */
  function ExpectedField(city: string, p: Payload, now: int, k: string): Option<Json>
  {
    if k == "ingested_date" then Some(JInt(now))
    else if k == "observed_date" then Some(p.dt)
    else if k in KeyList(p.components) then Get(p.components, k)
    else HeaderField(city, p, k)
  }

  /** `r` is the record `get_city_air_pollution` returns for `city` when the
      request ends with `response` and the clock reads `now`. */
  ghost predicate Conforms(city: string, response: Response, now: int, r: Dict)
    requires WellFormed(response)
  {
    match response
    case TimedOut =>
      r == [Entry("Error", JStr(TimeoutMessage))]
    case Answer(status, text, json) =>
      if status != 200 then
        r == [Entry("Error", JStr(text)), Entry("StatusCode", JInt(status))]
      else
        && Distinct(r)
        && KeyList(r) == ExpectedKeys(json.value.components)
        && forall k :: Get(r, k) == ExpectedField(city, json.value, now, k)
  }

  /** The four header names are pairwise different. */
  lemma HeaderNamesDiffer()
    ensures "city" != "lon" && "city" != "lat" && "city" != "air_quality_index"
    ensures "lon" != "lat" && "lon" != "air_quality_index" && "lat" != "air_quality_index"
  {
  }

  /** No header name occurs twice. */
  lemma HeaderKeysNoDup()
    ensures NoDup(HeaderKeys)
  {
    HeaderNamesDiffer();
  }

  /** The two date names differ from each other and from the header names. */
  lemma DateNamesDiffer()
    ensures "observed_date" != "ingested_date"
    ensures "observed_date" !in HeaderKeys && "ingested_date" !in HeaderKeys
  {
  }

  /** `json.dumps` of a record: a JSON object listing the record's fields in
      insertion order. The text itself is not modelled; the encoding keeps
      the fields it lists. */
  datatype Encoded = JsonObject(fields: Dict)

  function Dumps(d: Dict): Encoded
  {
    JsonObject(d)
  }

  /** The four header assignments, made on an empty dict. */
  function Header(city: string, p: Payload): Dict
  {
    Set(Set(Set(Set([], "city", JStr(city)), "lon", p.lon), "lat", p.lat), "air_quality_index", p.aqi)
  }

  /** The two date assignments, in the order they are made. */
  function Dates(p: Payload, now: int): Dict
  {
    [Entry("observed_date", p.dt), Entry("ingested_date", JInt(now))]
  }

  /** The record the assignments build on success: header, every pollutant,
      then the two dates. */
  function Built(city: string, p: Payload, now: int): Dict
  {
    SetAll(SetAll(Header(city, p), p.components), Dates(p, now))
  }

  /** The four header assignments give the header fields, in order. */
  lemma HeaderKeyList(city: string, p: Payload)
    ensures KeyList(Header(city, p)) == HeaderKeys
    ensures Distinct(Header(city, p))
  {
    // The intermediate key lists are not needed for the proof; they keep it
    // cheap for the solver.
    var h0: Dict := [];
    assert KeyList(h0) == [];
    var h1 := Set(h0, "city", JStr(city));
    assert KeyList(h1) == ["city"];
    var h2 := Set(h1, "lon", p.lon);
    assert KeyList(h2) == ["city", "lon"];
    var h3 := Set(h2, "lat", p.lat);
    assert KeyList(h3) == ["city", "lon", "lat"];
    var h4 := Set(h3, "air_quality_index", p.aqi);
    assert KeyList(h4) == HeaderKeys;
    HeaderKeysNoDup();
  }

  /** After the four header assignments each header field holds its value. */
  lemma HeaderGet(city: string, p: Payload, k: string)
    ensures Get(Header(city, p), k) == HeaderField(city, p, k)
  {
    var h0: Dict := [];
    var h1 := Set(h0, "city", JStr(city));
    var h2 := Set(h1, "lon", p.lon);
    var h3 := Set(h2, "lat", p.lat);
    GetSet(h0, "city", JStr(city), k);
    GetSet(h1, "lon", p.lon, k);
    GetSet(h2, "lat", p.lat, k);
    GetSet(h3, "air_quality_index", p.aqi, k);
  }

  /** The two date assignments, made one after the other. */
  lemma DatesAssigned(m: Dict, p: Payload, now: int)
    ensures SetAll(m, Dates(p, now)) == Set(Set(m, "observed_date", p.dt), "ingested_date", JInt(now))
  {
    SetAllPair(m, Entry("observed_date", p.dt), Entry("ingested_date", JInt(now)));
  }

  /** The keys the assignment sequence produces, in order. */
  lemma BuiltKeys(city: string, p: Payload, now: int)
    requires Distinct(p.components)
    ensures Distinct(Built(city, p, now))
    ensures KeyList(Built(city, p, now)) == ExpectedKeys(p.components)
  {
    var h, comps := Header(city, p), p.components;
    HeaderKeyList(city, p);
    DateNamesDiffer();
    SetAllKeys(h, comps);
    var m := SetAll(h, comps);
    var w := Without(KeyList(comps), HeaderKeys);
    assert KeyList(m) == HeaderKeys + w;
    assert KeyList(Dates(p, now)) == DateKeys;
    SetAllKeys(m, Dates(p, now));
    assert KeyList(Built(city, p, now)) == KeyList(m) + Without(DateKeys, KeyList(m));
    InAppendedWithout(HeaderKeys, KeyList(comps), "observed_date");
    InAppendedWithout(HeaderKeys, KeyList(comps), "ingested_date");
    WithoutSame(DateKeys, KeyList(m), KeyList(comps));
    assert KeyList(Built(city, p, now)) == HeaderKeys + w + Without(DateKeys, KeyList(comps));
  }

  /** The two date entries, looked up. */
  lemma DatesSpec(p: Payload, now: int, k: string)
    ensures KeyList(Dates(p, now)) == DateKeys
    ensures Distinct(Dates(p, now))
    ensures Get(Dates(p, now), k)
         == if k == "ingested_date" then Some(JInt(now))
            else if k == "observed_date" then Some(p.dt)
            else None
  {
    DateNamesDiffer();
    var ds := Dates(p, now);
    assert KeyList(ds) == DateKeys;
    assert ds[1..] == [Entry("ingested_date", JInt(now))];
    assert ds[1..][1..] == [];
  }

  /** The value the assignment sequence leaves under each key. */
  lemma BuiltGet(city: string, p: Payload, now: int, k: string)
    requires Distinct(p.components)
    ensures Get(Built(city, p, now), k) == ExpectedField(city, p, now, k)
  {
    var h := Header(city, p);
    DatesSpec(p, now, k);
    SetAllGet(SetAll(h, p.components), Dates(p, now), k);
    if k !in DateKeys {
      HeaderGet(city, p, k);
      SetAllGet(h, p.components, k);
    }
  }

  /** The assignment sequence produces exactly the record the contract
      describes: its keys, their order and every value. */
  lemma BuiltConforms(city: string, p: Payload, now: int, text: string)
    requires Distinct(p.components)
    ensures Conforms(city, Answer(200, text, Some(p)), now, Built(city, p, now))
  {
    BuiltKeys(city, p, now);
    forall k ensures Get(Built(city, p, now), k) == ExpectedField(city, p, now, k) {
      BuiltGet(city, p, now, k);
    }
  }

  /** The contract determines the record: two records that both conform to
      the same call are equal. So any two implementations of the contract,
      such as the copies in the producer and in the response test, return the
      same record for the same answer and clock reading. */
  lemma ConformsUnique(city: string, response: Response, now: int, r1: Dict, r2: Dict)
    requires WellFormed(response)
    requires Conforms(city, response, now, r1) && Conforms(city, response, now, r2)
    ensures r1 == r2
  {
    if response.Answer? && response.status == 200 {
      Extensionality(r1, r2);
    }
  }

  /** An error answer gives the same record whatever its body decodes to:
      no payload field is read. */
  lemma ErrorIgnoresPayload(city: string, status: int, text: string, j1: Option<Payload>,
                            j2: Option<Payload>, now: int, r: Dict)
    requires status != 200
    ensures Conforms(city, Answer(status, text, j1), now, r)
        <==> Conforms(city, Answer(status, text, j2), now, r)
    ensures Conforms(city, Answer(status, text, j1), now, r)
        <==> r == [Entry("Error", JStr(text)), Entry("StatusCode", JInt(status))]
  {
  }

  /** The field set of a successful record: the header, every pollutant and
      the two dates, and nothing else. */
  lemma SuccessKeySet(city: string, text: string, p: Payload, now: int, r: Dict)
    requires Distinct(p.components)
    requires Conforms(city, Answer(200, text, Some(p)), now, r)
    ensures forall k :: k in KeyList(r) <==> k in HeaderKeys || k in KeyList(p.components) || k in DateKeys
  {
    forall k ensures k in KeyList(r) <==> k in HeaderKeys || k in KeyList(p.components) || k in DateKeys {
      InWithout(KeyList(p.components), HeaderKeys, k);
      InWithout(DateKeys, KeyList(p.components), k);
    }
  }

  /** The dates of a successful record are the observation time and the
      clock reading, even when a pollutant has the same name: they are
      written last. */
  lemma SuccessDatesWin(city: string, text: string, p: Payload, now: int, r: Dict)
    requires Distinct(p.components)
    requires Conforms(city, Answer(200, text, Some(p)), now, r)
    ensures Get(r, "observed_date") == Some(p.dt)
    ensures Get(r, "ingested_date") == Some(JInt(now))
  {
    DateNamesDiffer();
  }

  /** Every pollutant not named like a date keeps its value in a successful
      record, also when it is named like a header field. */
  lemma SuccessComponentValues(city: string, text: string, p: Payload, now: int, r: Dict)
    requires Distinct(p.components)
    requires Conforms(city, Answer(200, text, Some(p)), now, r)
    ensures forall k :: k in KeyList(p.components) && k !in DateKeys ==> Get(r, k) == Get(p.components, k)
  {
    forall k | k in KeyList(p.components) && k !in DateKeys ensures Get(r, k) == Get(p.components, k) {
      assert Get(r, k) == ExpectedField(city, p, now, k);
    }
  }

  /** A header field that no pollutant shadows keeps the header value. */
  lemma SuccessHeaderValues(city: string, text: string, p: Payload, now: int, r: Dict)
    requires Distinct(p.components)
    requires Conforms(city, Answer(200, text, Some(p)), now, r)
    ensures "city" !in KeyList(p.components) ==> Get(r, "city") == Some(JStr(city))
    ensures "lon" !in KeyList(p.components) ==> Get(r, "lon") == Some(p.lon)
    ensures "lat" !in KeyList(p.components) ==> Get(r, "lat") == Some(p.lat)
    ensures "air_quality_index" !in KeyList(p.components) ==> Get(r, "air_quality_index") == Some(p.aqi)
  {
  }

  /** The key order of a successful record: the header always comes first,
      in its own order, even when pollutants overwrite header values; with no
      colliding pollutant names the order is header, pollutants in their
      order, then the two dates. */
  lemma SuccessKeyOrder(city: string, text: string, p: Payload, now: int, r: Dict)
    requires Distinct(p.components)
    requires Conforms(city, Answer(200, text, Some(p)), now, r)
    ensures |r| >= 4 && KeyList(r)[..4] == HeaderKeys
    ensures (forall k :: k in KeyList(p.components) ==> k !in HeaderKeys && k !in DateKeys)
        ==> KeyList(r) == HeaderKeys + KeyList(p.components) + DateKeys
  {
    assert |KeyList(r)| == |r|;
    var ks := KeyList(p.components);
    if forall k :: k in ks ==> k !in HeaderKeys && k !in DateKeys {
      WithoutNone(ks, HeaderKeys);
      WithoutNone(DateKeys, ks);
    }
  }
}
