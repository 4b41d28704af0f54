/** The ingest entry points: each takes one base64-wrapped binary reading for its metric,
    decodes it with that metric's decoder and writes it to that metric's table. The base64
    unwrapping and the binary decoders are library and generated code, given here as
    functions in a `Codec`; the store and its reachability are parameters. */
module Rules {
  import opened Common
  import opened Storage
  import Decimal

  /** Wire timestamps are unsigned 64-bit integers. */
  type Timestamp = t: nat | t < 0x1_0000_0000_0000_0000

  /** A decoded sensor value, kept opaque: the decimal text its `toString()` gives. */
  datatype SensorValue = SensorValue(numberText: string)

  /** One decoded message; the temperature and humidity messages have the same fields. */
  datatype Reading = Reading(deviceId: string, timestamp: Timestamp, value: SensorValue)

  datatype DecodeError = DecodeError(reason: string)

  type Bytes = seq<bv8>

  /** The library functions the handlers call: base64 unwrapping and the two generated decoders. */
  datatype Codec = Codec(
    fromBase64: string -> Bytes,
    temperatureFromBinary: Bytes -> Result<Reading, DecodeError>,
    humidityFromBinary: Bytes -> Result<Reading, DecodeError>)

  datatype Kind = Temperature | Humidity

  /** How an invocation ends: normally, or with the decode error thrown out of it. */
  datatype Invocation = Completed | Threw(error: DecodeError)

  const TemperatureTableEnv := "TEMPERATURE_TABLE_NAME"
  const HumidityTableEnv := "HUMIDITY_TABLE_NAME"

  /** The variable naming each metric's table. */
  function TableEnv(kind: Kind): string
  {
    match kind
    case Temperature => TemperatureTableEnv
    case Humidity => HumidityTableEnv
  }

  /** Each metric's decoder. */
  function DecoderFor(codec: Codec, kind: Kind): Bytes -> Result<Reading, DecodeError>
  {
    match kind
    case Temperature => codec.temperatureFromBinary
    case Humidity => codec.humidityFromBinary
  }

  /** Unwrap the base64 envelope, then decode; a decode failure is passed on to the caller. */
  function Parse(input: string, codec: Codec, decode: Bytes -> Result<Reading, DecodeError>): (r: Result<Reading, DecodeError>)
    ensures r.Failure? <==> decode(codec.fromBase64(input)).Failure?
    ensures r.Failure? ==> r.error == decode(codec.fromBase64(input)).error
    ensures r.Success? ==> r.value == decode(codec.fromBase64(input)).value
  {
    decode(codec.fromBase64(input))
  }

  /** The item written for a reading: `device_id` as a string attribute, `value` and
      `timestamp` as number attributes. */
  function ToItem(reading: Reading): (item: Item)
    ensures KeyOf(item) == if reading.deviceId == "" then None else Some(Key(reading.deviceId, reading.timestamp))
    ensures item.Keys == {PartitionKeyName, "value", SortKeyName}
    ensures item[PartitionKeyName] == S(reading.deviceId)
    ensures item["value"] == N(reading.value.numberText)
    ensures item[SortKeyName].N? && Decimal.Parse(item[SortKeyName].n) == Some(reading.timestamp)
  {
    Decimal.ParseRender(reading.timestamp);
    map[
      PartitionKeyName := S(reading.deviceId),
      "value" := N(reading.value.numberText),
      SortKeyName := N(Decimal.Render(reading.timestamp))]
  }

  // ---------------------------------------------------------------- specification

  /** The store after the write step: untouched when the table is not configured or the
      write fails, otherwise with the reading's item put into the configured table. */
  function Stored(reading: Reading, tableNameEnv: string, env: Env, tables: Tables, reachable: bool): Tables
  {
    match Truthy(env, tableNameEnv)
    case None => tables
    case Some(tableName) =>
      match ApplyPut(tables, tableName, ToItem(reading), reachable)
      case Success(t) => t
      case Failure(_) => tables
  }

  datatype IngestResult = IngestResult(outcome: Invocation, tables: Tables)

  /** One invocation of an entry point for `kind`: how it ends and the store afterwards. */
  function Ingest(kind: Kind, input: string, env: Env, codec: Codec, tables: Tables, reachable: bool): IngestResult
  {
    match Parse(input, codec, DecoderFor(codec, kind))
    case Failure(e) => IngestResult(Threw(e), tables)
    case Success(reading) => IngestResult(Completed, Stored(reading, TableEnv(kind), env, tables, reachable))
  }

  // ---------------------------------------------------------------- the handlers

  /** The write step: check the table name, build the item, put it, and swallow a failed put. */
  method BaseHandler(store: Store, reading: Reading, tableNameEnv: string, env: Env, reachable: bool)
    requires store.Valid()
    modifies store
    ensures store.Valid()
    ensures store.tables == Stored(reading, tableNameEnv, env, old(store.tables), reachable)
  {
    var tableName := Truthy(env, tableNameEnv);
    if tableName.None? {
      return;
    }
    var written := store.Put(tableName.value, ToItem(reading), reachable);
  }

  method HumidityHandler(store: Store, input: string, env: Env, codec: Codec, reachable: bool)
    returns (outcome: Invocation)
    requires store.Valid()
    modifies store
    ensures store.Valid()
    ensures IngestResult(outcome, store.tables) == Ingest(Humidity, input, env, codec, old(store.tables), reachable)
  {
    var data := Parse(input, codec, codec.humidityFromBinary);
    if data.Failure? {
      return Threw(data.error);
    }
    BaseHandler(store, data.value, HumidityTableEnv, env, reachable);
    outcome := Completed;
  }

  method TemperatureHandler(store: Store, input: string, env: Env, codec: Codec, reachable: bool)
    returns (outcome: Invocation)
    requires store.Valid()
    modifies store
    ensures store.Valid()
    ensures IngestResult(outcome, store.tables) == Ingest(Temperature, input, env, codec, old(store.tables), reachable)
  {
    var data := Parse(input, codec, codec.temperatureFromBinary);
    if data.Failure? {
      return Threw(data.error);
    }
    BaseHandler(store, data.value, TemperatureTableEnv, env, reachable);
    outcome := Completed;
  }

  // ---------------------------------------------------------------- properties

  /** An invocation throws exactly when decoding fails, and then nothing is written. */
  lemma ThrowsIffDecodeFails(kind: Kind, input: string, env: Env, codec: Codec, tables: Tables, reachable: bool)
    ensures var r := Ingest(kind, input, env, codec, tables, reachable);
      && (r.outcome.Threw? <==> Parse(input, codec, DecoderFor(codec, kind)).Failure?)
      && (r.outcome.Threw? ==> r.outcome.error == Parse(input, codec, DecoderFor(codec, kind)).error && r.tables == tables)
  {
  }

  /** Without a configured table name the invocation completes and the store is unchanged. */
  lemma UnconfiguredSkipsWrite(kind: Kind, input: string, env: Env, codec: Codec, tables: Tables, reachable: bool)
    requires Parse(input, codec, DecoderFor(codec, kind)).Success?
    requires TableEnv(kind) !in env || env[TableEnv(kind)] == ""
    ensures Ingest(kind, input, env, codec, tables, reachable) == IngestResult(Completed, tables)
  {
  }

  /** A successful write files the decoded reading under (deviceId, timestamp) in the table
      named by the metric's variable; every other key of it and every other table stay as they were. */
  lemma WritesDecodedReading(kind: Kind, input: string, env: Env, codec: Codec, tables: Tables)
    requires Parse(input, codec, DecoderFor(codec, kind)).Success?
    requires TableEnv(kind) in env && env[TableEnv(kind)] != "" && env[TableEnv(kind)] in tables
    requires Parse(input, codec, DecoderFor(codec, kind)).value.deviceId != ""
    ensures var reading := Parse(input, codec, DecoderFor(codec, kind)).value;
      var name := env[TableEnv(kind)];
      var key := Key(reading.deviceId, reading.timestamp);
      var r := Ingest(kind, input, env, codec, tables, true);
      && r.outcome == Completed
      && r.tables.Keys == tables.Keys
      && r.tables[name].Keys == tables[name].Keys + {key}
      && r.tables[name][key] == ToItem(reading)
      && r.tables[name][key]["value"] == N(reading.value.numberText)
      && (forall k :: k in tables[name] && k != key ==> r.tables[name][k] == tables[name][k])
      && (forall n :: n in tables && n != name ==> r.tables[n] == tables[n])
  {
    var reading := Parse(input, codec, DecoderFor(codec, kind)).value;
    PutStoresItem(tables, env[TableEnv(kind)], ToItem(reading), true);
  }

  /** A failing put (store unreachable, table missing, or an empty device id the store rejects
      as a key) is swallowed: the invocation completes, nothing is retried and nothing changes. */
  lemma StoreFailureSwallowed(kind: Kind, input: string, env: Env, codec: Codec, tables: Tables, reachable: bool)
    requires Parse(input, codec, DecoderFor(codec, kind)).Success?
    requires TableEnv(kind) in env && env[TableEnv(kind)] != ""
    requires !reachable || env[TableEnv(kind)] !in tables || Parse(input, codec, DecoderFor(codec, kind)).value.deviceId == ""
    ensures Ingest(kind, input, env, codec, tables, reachable) == IngestResult(Completed, tables)
  {
  }

  /** An invocation changes at most the table its own metric's variable names. */
  lemma WritesOnlyOwnTable(kind: Kind, input: string, env: Env, codec: Codec, tables: Tables, reachable: bool, name: string)
    requires name in tables
    requires TableEnv(kind) !in env || env[TableEnv(kind)] != name
    ensures var r := Ingest(kind, input, env, codec, tables, reachable);
      r.tables.Keys == tables.Keys && r.tables[name] == tables[name]
  {
    match Parse(input, codec, DecoderFor(codec, kind))
    case Failure(_) =>
    case Success(reading) =>
      if Truthy(env, TableEnv(kind)).Some? && ApplyPut(tables, env[TableEnv(kind)], ToItem(reading), reachable).Success? {
        PutStoresItem(tables, env[TableEnv(kind)], ToItem(reading), reachable);
      }
  }

  /** The two metrics never share a table as long as their variables name different tables:
      a temperature message leaves the humidity table alone, and a humidity message the temperature table. */
  lemma KindsNeverShareTable(input: string, env: Env, codec: Codec, tables: Tables, reachable: bool)
    requires TemperatureTableEnv in env && HumidityTableEnv in env
    requires env[TemperatureTableEnv] != env[HumidityTableEnv]
    ensures env[HumidityTableEnv] in tables ==>
      Ingest(Temperature, input, env, codec, tables, reachable).tables[env[HumidityTableEnv]] == tables[env[HumidityTableEnv]]
    ensures env[TemperatureTableEnv] in tables ==>
      Ingest(Humidity, input, env, codec, tables, reachable).tables[env[TemperatureTableEnv]] == tables[env[TemperatureTableEnv]]
  {
    if env[HumidityTableEnv] in tables {
      WritesOnlyOwnTable(Temperature, input, env, codec, tables, reachable, env[HumidityTableEnv]);
    }
    if env[TemperatureTableEnv] in tables {
      WritesOnlyOwnTable(Humidity, input, env, codec, tables, reachable, env[TemperatureTableEnv]);
    }
  }

  /** Redelivering the same message is harmless: two invocations leave the store as one does. */
  lemma RedeliveryIdempotent(kind: Kind, input: string, env: Env, codec: Codec, tables: Tables, reachable: bool)
    ensures var once := Ingest(kind, input, env, codec, tables, reachable);
      Ingest(kind, input, env, codec, once.tables, reachable) == once
  {
    match Parse(input, codec, DecoderFor(codec, kind))
    case Failure(_) =>
    case Success(reading) =>
      if Truthy(env, TableEnv(kind)).Some? && ApplyPut(tables, env[TableEnv(kind)], ToItem(reading), reachable).Success? {
        PutIdempotent(tables, env[TableEnv(kind)], ToItem(reading), reachable);
      }
  }

  /** The written item can be read back: once a reading newer than `since` is stored, a window
      query over its table for its device with a large enough limit returns it. */
  lemma WrittenReadingIsQueryable(kind: Kind, input: string, env: Env, codec: Codec, tables: Tables, since: int, limit: nat)
    requires Parse(input, codec, DecoderFor(codec, kind)).Success?
    requires TableEnv(kind) in env && env[TableEnv(kind)] != "" && env[TableEnv(kind)] in tables
    requires Parse(input, codec, DecoderFor(codec, kind)).value.deviceId != ""
    requires Parse(input, codec, DecoderFor(codec, kind)).value.timestamp > since
    requires |Matching(Ingest(kind, input, env, codec, tables, true).tables[env[TableEnv(kind)]],
                       Parse(input, codec, DecoderFor(codec, kind)).value.deviceId, since)| <= limit
    ensures var reading := Parse(input, codec, DecoderFor(codec, kind)).value;
      var table := Ingest(kind, input, env, codec, tables, true).tables[env[TableEnv(kind)]];
      ToItem(reading) in Window(table, reading.deviceId, since, limit, ScanIndexForward)
  {
    var reading := Parse(input, codec, DecoderFor(codec, kind)).value;
    var table := Ingest(kind, input, env, codec, tables, true).tables[env[TableEnv(kind)]];
    WritesDecodedReading(kind, input, env, codec, tables);
    WindowComplete(table, reading.deviceId, since, limit, ScanIndexForward, reading.timestamp);
    var keys := WindowKeys(table, reading.deviceId, since, limit, ScanIndexForward);
    var i :| 0 <= i < |keys| && keys[i] == reading.timestamp;
    assert Window(table, reading.deviceId, since, limit, ScanIndexForward)[i] == ToItem(reading);
  }

  /** Every write keeps each stored item filed under the key it carries. */
  lemma IngestPreservesWellKeyed(kind: Kind, input: string, env: Env, codec: Codec, tables: Tables, reachable: bool)
    requires WellKeyed(tables)
    ensures WellKeyed(Ingest(kind, input, env, codec, tables, reachable).tables)
  {
    match Parse(input, codec, DecoderFor(codec, kind))
    case Failure(_) =>
    case Success(reading) =>
      if Truthy(env, TableEnv(kind)).Some? && ApplyPut(tables, env[TableEnv(kind)], ToItem(reading), reachable).Success? {
        PutPreservesWellKeyed(tables, env[TableEnv(kind)], ToItem(reading), reachable);
      }
  }
}
