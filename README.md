# airpol60 — a Dafny model of the air-pollution producer

airpol60 samples the OpenWeather air-pollution endpoint for every row of a
city table (`city_coords.csv`). Each answer becomes one flat record, which is
encoded as JSON and published to a message-broker topic under the city's name.
The repository holds two copies of this pipeline:

- `demo/producer_demo.py` publishes the records through a broker producer and
  drains the producer's queue after the loop.
- `demo/test_api_response.py` conforms and encodes the same records without
  publishing them.

The model covers the conformer `get_city_air_pollution` and both city loops.

- **Values** (`values.dfy`) holds the JSON scalars decoded from the endpoint
  and the opaque floating-point numbers of the payload and the city table.
- **Dicts** (`dicts.dfy`) models a Python `dict` as an association list in
  insertion order. Assigning to a present key overwrites the value in its
  position; assigning to a new key appends it. This order is the key order of
  the JSON text.
- **Cities** (`cities.dfy`) models the city table and the pandas lookup
  `city_df.loc[city_df["city"] == city].iloc[0]`, which takes the first row
  with the given name.
- **Conformance** (`conformance.dfy`) holds three things:
  - how a request ended: `Response`, meaning it timed out or it got an answer
    with a status, a body text and the decoded payload;
  - the contract `Conforms`, which says which record the conformer returns
    without reference to the order of assignments: the exact error records,
    the key list, and the value under every key;
  - the lemmas that derive the promised properties from `Conforms`.
- **ProducerDemo** (`producer_demo.dfy`) holds:
  - the conformer as an imperative method, with its loop over the pollutant
    components as a method of its own;
  - the broker producer as a class that records the calls made on it;
  - the city loop of `main`, followed by `poll(10000)` and `flush()`.
- **TestApiResponse** (`test_api_response.dfy`) holds that script's own copy of
  the conformer and its city loop, which only encodes.

The model makes the environment explicit:

- HTTP outcomes are given per row as parameters.
- The clock reading `int(time.time())` is given per row as a parameter.
- Floating-point values are opaque and are only copied.
- `json.dumps` is an abstract encoding that keeps the record's fields in order.

Error records use the capitalised keys `Error` and `StatusCode`. Any status
other than 200 is an error. Nothing is retried.

## Model

| member | source | states |
|---|---|---|
| ProducerDemo.GetCityAirPollution | demo/producer_demo.py:35-61 | Requests the given coordinates with the API key. The record it returns conforms to the contract: `{"Error": "Request timed out"}` on a timeout; `{"Error": body, "StatusCode": status}` on a status other than 200; otherwise the success record with exactly the expected keys, in the expected order, and the expected value under every key. |
| ProducerDemo.CopyComponents | demo/producer_demo.py:56-58 | The loop over the components assigns every pollutant in payload order, so the record it returns is the input record with the components copied in (its keys and values are given by `Dicts.SetAllKeys` and `Dicts.SetAllGet`). |
| TestApiResponse.CopyComponents | demo/test_api_response.py:53-55 | The test script's copy of the component loop, with the same result. |
| TestApiResponse.GetCityAirPollution | demo/test_api_response.py:32-58 | The script's own copy of the conformer meets the same contract as the producer's copy. |
| Conformance.ConformsUnique | demo/test_api_response.py:32-58 | At most one record conforms to a given call, so the two copies of the conformer return the same record for the same answer and clock reading. |
| Conformance.BuiltConforms | demo/producer_demo.py:51-60 | The assignments in order, starting from an empty dict, build a record that conforms to the contract: four header fields, every pollutant, then the two dates. |
| Conformance.BuiltKeys | demo/producer_demo.py:51-60 | The assignments leave no key repeated. The key order is the header, then the pollutants not named like a header field, then the dates not named like a pollutant. |
| Conformance.BuiltGet | demo/producer_demo.py:51-60 | After the assignments, a date key holds the date, a pollutant key holds the pollutant's value, a header key holds its header value, and any other key is absent. |
| Conformance.HeaderKeyList | demo/producer_demo.py:51-55 | The four header assignments give the keys city, lon, lat and air_quality_index, in that order and without repeats. |
| Conformance.HeaderGet | demo/producer_demo.py:52-55 | After the header assignments, city holds the city name, lon and lat hold the payload's coordinates, and air_quality_index holds the payload's AQI. |
| Conformance.DatesSpec | demo/producer_demo.py:59-60 | The two date entries are observed_date (the payload's `dt`) and then ingested_date (the clock reading). |
| Conformance.DatesAssigned | demo/producer_demo.py:59-60 | Copying the date entries is the same as the two date assignments made one after the other. |
| Conformance.ErrorIgnoresPayload | demo/producer_demo.py:43-46 | For a status other than 200, the record is exactly `{"Error": body, "StatusCode": status}`, whatever the body decodes to. |
| Conformance.SuccessKeySet | demo/producer_demo.py:51-60 | A success record has a key exactly when the key is a header name, a pollutant name or a date name. |
| Conformance.SuccessDatesWin | demo/producer_demo.py:59-60 | In a success record, observed_date is the payload's `dt` and ingested_date is the clock reading, even when a pollutant has the same name. |
| Conformance.SuccessComponentValues | demo/producer_demo.py:56-58 | Every pollutant not named like a date keeps its value in a success record, including one named like a header field. |
| Conformance.SuccessHeaderValues | demo/producer_demo.py:52-55 | A header field that no pollutant shadows holds the city name, longitude, latitude or AQI respectively. |
| Conformance.SuccessKeyOrder | demo/producer_demo.py:51-60 | The first four keys of a success record are always the header keys in order. If no pollutant name collides with a header or date name, the key order is header, pollutants in payload order, observed_date, ingested_date. |
| Cities.FirstIndex | demo/producer_demo.py:91-94 | The row chosen for a city has that city's name, and no earlier row has it. |
| Cities.LookupOfOwnRow | demo/producer_demo.py:89-94 | The row chosen for row `i` is never later than `i`. It is row `i` itself exactly when no earlier row has the same name. |
| ProducerDemo.Run | demo/producer_demo.py:86-105 | Makes one `produce` per table row, in row order. Each message goes to the run's topic, is keyed by the row's city and carries a record that conforms for that row's answer and clock reading. Those calls are followed by exactly one `poll(10000)` and then one `flush()`, so every message has been waited for at the end. Row `i` is requested with the coordinates of the first row named like row `i`. |
| ProducerDemo.Producer.constructor | demo/producer_demo.py:84 | A new producer has had no calls made on it and has nothing outstanding. |
| ProducerDemo.Producer.Produce | demo/producer_demo.py:97 | Appends exactly one submitted message (topic, key, value) to the call history. The message is then outstanding. |
| ProducerDemo.Producer.Poll | demo/producer_demo.py:104 | Appends a poll with its timeout to the call history. It does not by itself drain the queue. |
| ProducerDemo.Producer.Flush | demo/producer_demo.py:105 | Appends a flush to the call history. Afterwards no submitted message is outstanding. |
| TestApiResponse.Run | demo/test_api_response.py:64-73 | Produces one encoded record per table row, in row order. Each record conforms for that row's city, answer and clock reading. Row `i` is requested with the coordinates of the first row named like row `i`. |
| Dicts.Set | demo/producer_demo.py:52-60 | Assigning to a present key keeps the key list unchanged. Assigning to a new key appends it at the end. |
| Dicts.GetSet | demo/producer_demo.py:52-60 | After `d[k] = v`, `k` holds `v` and every other key holds what it held before. |
| Dicts.SetDistinct | demo/producer_demo.py:52-60 | An assignment never creates a repeated key. |
| Dicts.Get | demo/producer_demo.py:58 | A lookup finds a value exactly when the key is present. |
| Dicts.SetAllKeys | demo/producer_demo.py:57-58 | Copying the components key by key keeps the existing keys in place and appends the new keys in the components' order, without repeats. |
| Dicts.SetAllGet | demo/producer_demo.py:57-58 | After the copy, every component key holds the component's value, and every other key keeps its old value. |
| Dicts.Extensionality | demo/producer_demo.py:51-61 | Two dicts with the same key order and the same value under every key are equal. This is what makes the contract determine the record. |

## Left out

- The URL, the `requests.get` call and its three-second timeout are not modelled. How a request ended is a parameter of the conformer.
- Request failures other than a timeout, such as a refused connection, raise out of the conformer and end the run. They are not modelled.
- A status-200 answer whose body lacks `coord`, `list[0].main.aqi`, `list[0].components` or `list[0].dt` raises in the source (`KeyError`, `IndexError` for an empty `list`, or a JSON decoding error for a body that is not JSON). The model requires a well-formed payload instead.
- `int(time.time())` is a parameter: one clock reading per row.
- Logging calls and `print` output are not modelled.
- `delivery_callback` is not modelled.
- ProducerDemo.Producer.Produce: always succeeds. In the source, `producer.produce` can raise synchronously (`BufferError` when the local queue is full, or `KafkaException`); nothing catches it, so the run ends and later rows get no message. That failure is not modelled, and `ProducerDemo.Run` promises one message per row only for runs where every `produce` call returns.
- Delivery itself is not modelled. The producer is represented by the calls made on it plus a flag saying whether everything submitted has been waited for.
- The broker configuration passed to `Producer(...)` is not modelled.
- The text `json.dumps` writes is not modelled. The encoding is an abstract value that lists the record's fields in insertion order.
- `set_up`, argument and configuration parsing, and reading `city_coords.csv` are not modelled. The table, topic and API key are parameters.
- The `--test` branch is not modelled. It prints each record and writes it to a file under `json_dumps/`.
- Floating-point coordinates and pollutant values are opaque. They are only copied, never computed with.
