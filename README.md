# Sensor telemetry: ingest and recent-readings query, in Dafny

This project models the request and ingest layer of a small IoT telemetry service.
Field devices publish temperature and humidity readings. Two ingest entry points
(`cdk/lambda/rules.ts`) decode each base64-wrapped binary reading and write it to that
metric's table, keyed by `device_id` and `timestamp`. A query endpoint
(`cdk/lambda/api.ts`) routes a request on its `resource` path parameter to one of the two tables and returns the
last minute of readings of `<resource>_sensor_1`, at most 100 of them. A settings reader
(`cdk/utils/Environment.ts`) insists that four deployment variables are all set.

Modules:

- `Common` (common.dfy): `Option`, `Result`, the environment map, and `Truthy`, the
  JavaScript reading of `process.env[key]` in a condition (unset and `""` are both falsy).
- `Decimal` (decimal.dfy): `bigint.toString()` for timestamps and the store's reading of a
  number attribute.
- `Storage` (storage.dfy): the backing key-value store. Tables are maps from
  `(device_id, timestamp)` to attribute-map items. `ApplyPut` is the write and
  `RunQuery` / `Window` is the key-condition query. The class `Store` holds the tables and
  updates them in place with `Put`.
- `Api` (api.dfy): `handler` and `baseHandler` of the query endpoint, as total functions
  from (event, environment, `now`, store contents, store reachability) to a response.
- `Rules` (rules.dfy): `humidityHandler`, `temperatureHandler`, `baseHandler` as methods on
  a `Store`. `parse` is a pure function. Each method is specified by the pure function
  `Ingest` / `Stored`, and the lemmas are stated about that function.
- `Environment` (environment.dfy): `getEnvironment`.

Named assumption: the query sets no `ScanIndexForward`, so the store's default order
applies. DynamoDB's default returns items in ascending sort-key order and applies `Limit`
in that order. This is `Storage.ScanIndexForward := true`. The descending order is
modelled too, so the consequence of the assumption can be stated
(`WindowKeepsEarliest` against `WindowKeepsLatest`).

Consequences of the code worth knowing:

- With the default ascending order, the query keeps the 100 EARLIEST readings of the
  window, not the latest (`Api.OverfullWindowKeepsEarliest`).
- The query endpoint routes on the `resource` path parameter only, and the ingest entry
  points unwrap base64 only.
- There is one fixed ingest entry point per metric kind. A failed write is logged and
  swallowed, not reported.
- The document client converts every number attribute of a returned item to a JavaScript
  number. An integer above 2^53 - 1 becomes a BigInt, which `JSON.stringify` rejects inside
  the `try`. So a window holding a reading with such a timestamp is answered 500, although
  the read itself succeeded (`Api.UnsafeTimestampFails`). Ingest accepts any timestamp below
  2^64.

## Model

| member | source | states |
|---|---|---|
| `Api.Handler` | cdk/lambda/api.ts:9-38 | the status is always 200, 404 or 500; 404 exactly when the resource is neither "temperature" nor "humidity" (missing included), with body `{message: "Route not found", path}`; a 200 carries items, at most 100 |
| `Api.ResourceOf` | cdk/lambda/api.ts:16 | `event.pathParameters?.resource`: present exactly when the event has path parameters holding `resource`, and then that value |
| `Api.BaseHandler` | cdk/lambda/api.ts:40-90 | 200 exactly when the table variable is set and non-empty, the store is reachable, the table exists and every integer attribute of the returned items fits a JavaScript number; a 200 body is exactly the items the window query returns, at most 100; every other answer is 500: `"<VAR> name not configured"` exactly when the variable is unset or empty, and `"Failed to fetch <resource> data"` for every failure after that (unreachable store, missing table, unconvertible number) |
| `Api.BuildQuery` | cdk/lambda/api.ts:59-73 | the query names the configured table, device `<resource>_sensor_1`, threshold `now - 60000` and limit 100 |
| `Api.RoutesToOwnTable` | cdk/lambda/api.ts:16-32 | exactly "temperature" is served from TEMPERATURE_TABLE_NAME's table and exactly "humidity" from HUMIDITY_TABLE_NAME's; the match is case-sensitive ("Temperature" is a 404) |
| `Api.UnknownRouteSkipsStore` | cdk/lambda/api.ts:34-37 | a 404 answer is the same for every store content and reachability, so no query is made |
| `Api.MissingTableNameSkipsStore` | cdk/lambda/api.ts:46-54 | an unset or empty table-name variable gives 500 `"<VAR> name not configured"`, independent of the store |
| `Api.SuccessIsWindow` | cdk/lambda/api.ts:45-82 | for a configured, existing table in a reachable store whose answer converts cleanly, the response is 200 and its body is exactly the table's items of `<resource>_sensor_1` with timestamp strictly after `now - 60000`, ascending, at most 100; in a store whose items are filed under their own keys, each item's own `device_id` and `timestamp` are that sensor and that sort key |
| `Api.UnsafeTimestampFails` | cdk/lambda/api.ts:76-89 | a returned reading whose timestamp exceeds 2^53 - 1 turns the whole answer into the generic 500 `"Failed to fetch <resource> data"` |
| `Api.OverfullWindowKeepsEarliest` | cdk/lambda/api.ts:72 | a window reading missing from a 200 body means the body holds 100 items, all older than the missing one |
| `Api.StoreFailureIsGeneric` | cdk/lambda/api.ts:83-89 | an unreachable store or a missing table gives 500 `"Failed to fetch <resource> data"`, with no error detail |
| `Api.TemperatureIgnoresHumidityTable` | cdk/lambda/api.ts:18-24 | when the two variables name different tables, a temperature answer does not depend on the humidity table |
| `Api.HumidityIgnoresTemperatureTable` | cdk/lambda/api.ts:25-31 | when the two variables name different tables, a humidity answer does not depend on the temperature table |
| `Storage.ApplyPut` | cdk/lambda/rules.ts:51-52 | a put succeeds exactly when the store is reachable, the table exists and the item has a well-formed key; each failure cause is told apart; the set of tables is unchanged |
| `Storage.PutStoresItem` | cdk/lambda/rules.ts:36-53 | after a put the item is stored under its key, the table gains only that key, and all other keys and tables are unchanged |
| `Storage.PutIdempotent` | cdk/lambda/rules.ts:36-53 | repeating a put leaves the store as one put does |
| `Storage.PutLastWriteWins` | cdk/test/cdk.test.ts:26-29 | two puts under the same (device_id, timestamp) key leave the store as the second put alone does |
| `Storage.PutPreservesWellKeyed` | cdk/test/cdk.test.ts:26-32 | every successful put keeps each item filed under the key its `device_id` / `timestamp` attributes carry |
| `Storage.Store.Put` | cdk/lambda/rules.ts:51-52 | the in-place put sets the tables to the `ApplyPut` result, or leaves them unchanged and returns its error |
| `Storage.MatchingMeans` | cdk/lambda/api.ts:61-62 | a timestamp matches the key condition exactly when the device's item with it exists and it is strictly greater than `since` |
| `Storage.Ascending` | cdk/lambda/api.ts:59-73 | the default result order: the set's elements, each exactly once, strictly increasing |
| `Storage.WindowKeys` | cdk/lambda/api.ts:61-72 | the returned keys are at most `limit`, each an existing key of the device newer than `since`, increasing in the default order and decreasing otherwise |
| `Storage.WindowItemsCarryKeys` | cdk/lambda/api.ts:61-71 | in a table whose items are filed under their own keys, each returned item's `device_id` attribute is the queried device and its `timestamp` attribute reads back as a returned sort key newer than `since` |
| `Storage.RunQuery` | cdk/lambda/api.ts:75-77 | a query succeeds exactly when the store is reachable and the table exists, and returns at most `limit` items |
| `Storage.WindowComplete` | cdk/lambda/api.ts:61-72 | when no more than `limit` items match, every matching item is returned |
| `Storage.WindowKeepsEarliest` | cdk/lambda/api.ts:72 | in ascending order, a matching item left out means `limit` items came back, all earlier than it |
| `Storage.WindowKeepsLatest` | cdk/lambda/api.ts:72 | in descending order (not the query's default), a matching item left out means `limit` items came back, all later than it |
| `Storage.QueryIsolated` | cdk/lambda/api.ts:59-60 | a query's answer depends only on its own table |
| `Decimal.Render` | cdk/lambda/rules.ts:46-48 | `timestamp.toString()` is a non-empty digit string without a leading zero |
| `Decimal.ParseRender` | cdk/lambda/rules.ts:46-48 | reading a rendered timestamp back as a number gives the same timestamp |
| `Rules.ToItem` | cdk/lambda/rules.ts:37-50 | the item has exactly the attributes `device_id` (string, the deviceId), `value` (number, the decoded value) and `timestamp` (number, reading back as the timestamp); its key is (deviceId, timestamp), except that an empty deviceId is not a valid key |
| `Rules.Parse` | cdk/lambda/rules.ts:59-67 | the result is the decoder applied to the base64-unwrapped input; a decode failure comes back as that same error (rethrown) |
| `Rules.BaseHandler` | cdk/lambda/rules.ts:19-57 | the store afterwards is `Stored`: unchanged when the table variable is unset or empty or when the put fails, otherwise the put's result |
| `Rules.HumidityHandler` | cdk/lambda/rules.ts:5-10 | decodes with the humidity decoder, writes under HUMIDITY_TABLE_NAME, and its outcome and store are `Ingest(Humidity, …)` |
| `Rules.TemperatureHandler` | cdk/lambda/rules.ts:12-17 | decodes with the temperature decoder, writes under TEMPERATURE_TABLE_NAME, and its outcome and store are `Ingest(Temperature, …)` |
| `Rules.ThrowsIffDecodeFails` | cdk/lambda/rules.ts:59-67 | an invocation throws exactly when base64 unwrapping and decoding fail, rethrows that same error, and writes nothing |
| `Rules.UnconfiguredSkipsWrite` | cdk/lambda/rules.ts:30-34 | with the table variable unset or empty, the invocation completes and the store is unchanged |
| `Rules.WritesDecodedReading` | cdk/lambda/rules.ts:36-53 | a successful write puts the decoded reading's item under (deviceId, timestamp) in the configured table, with `value` carried over; all other keys and tables are unchanged |
| `Rules.StoreFailureSwallowed` | cdk/lambda/rules.ts:54-56 | a failing put completes normally with the store unchanged, and there is no retry |
| `Rules.WritesOnlyOwnTable` | cdk/lambda/rules.ts:5-17 | an invocation changes no table other than the one its own metric's variable names |
| `Rules.KindsNeverShareTable` | cdk/lambda/rules.ts:5-17 | when the two variables name different tables, a temperature message never touches the humidity table and a humidity message never touches the temperature table |
| `Rules.RedeliveryIdempotent` | cdk/lambda/rules.ts:36-53 | handling the same message twice leaves the same outcome and store as handling it once |
| `Rules.WrittenReadingIsQueryable` | cdk/lambda/rules.ts:36-53 | a written reading newer than `since` is returned by a window query on its table and device when the limit covers the window |
| `Rules.IngestPreservesWellKeyed` | cdk/lambda/rules.ts:37-50 | ingesting keeps every stored item filed under the key its own attributes carry |
| `Environment.GetEnvironment` | cdk/utils/Environment.ts:8-24 | succeeds exactly when ACCOUNT_ID, REGION, TOPIC_NAME and BASE_ARN are all set and non-empty, and then holds exactly those four values; otherwise it fails with "Missing environment variables" |
| `Environment.NeverPartial` | cdk/utils/Environment.ts:14-23 | a returned record never has an empty field |
| `Environment.EmptyIsUnset` | cdk/utils/Environment.ts:14 | setting any of the four variables to "" gives the same result as unsetting it |
| `Environment.OnlyFourVariablesMatter` | cdk/utils/Environment.ts:9-12 | two environments that agree on the four variables give the same result |
| `Common.Truthy` | cdk/lambda/api.ts:46-47 | `process.env[key]` in a condition: a value comes back only when the variable is set, and it is then that non-empty value; an unset or empty variable gives nothing (the same check is at cdk/lambda/rules.ts:30-31 and cdk/utils/Environment.ts:14) |

## Left out

- Base64 unwrapping (`Buffer.from(…, "base64")`) and the generated protobuf decoders (`Temperature.fromBinary`, `Humidity.fromBinary`): they are library and generated code that is not in the repository. They are the function fields of `Rules.Codec`. The unwrapping is total, as `Buffer.from` never throws on a string; only the decoders fail, with `DecodeError`.
- The sensor value is a 32-bit float. It is kept opaque as the text of its `toString()`. A NaN or infinite value, which the store rejects as a number, is not modelled.
- JSON serialisation of response bodies: bodies are modelled as the structured values they serialise.
- Store pagination: the 1 MB page cap and `LastEvaluatedKey` are left out. The source ignores them, and the model returns everything up to `Limit`.
- Only the sort key is read back as a number by the store, and only as an unsigned integer digit string, which is what `bigint.toString()` produces. The `value` attribute is carried as its text.
- Api.BaseHandler: only unsigned integer number texts are checked against the 2^53 - 1 conversion limit. A `value` written as a negative or exponent-form text beyond that range (for example `"-1e+30"`) also fails the conversion in the document client and gives a 500, which the model does not capture, because the value is kept opaque.
- Eventual consistency of reads and concurrent invocations: each call sees one store state.
- Client construction, `console.log` / `console.error` logging, and `Date.now()`. The clock is the `now` parameter, and reachability of the store is the `reachable` parameter.
- `cdk/lambda/handler.ts` is an earlier revision of the ingest path with no store write. It is not part of this model.
- `cdk/lib/cdk-stack.ts`, `cdk/test/cdk.test.ts` (except its key schema), `cdk/main.ts` and `monitoring-core/` are provisioning, tests, a demo script and an MQTT publisher. They are not part of this model.
