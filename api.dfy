/** The query endpoint: routes a request on its `resource` path parameter to the
    temperature or humidity table, reads the last minute of readings of that metric's
    sensor, and shapes the answer as a status code and a body. The clock reading `now`
    (milliseconds) and the state of the store are parameters. */
module Api {
  import opened Common
  import opened Storage
  import Decimal

  /** The parts of the incoming request the handler looks at. */
  datatype ApiEvent = ApiEvent(path: string, pathParameters: Option<map<string, string>>)

  /** A response body, before it is serialised as JSON. */
  datatype Body =
    | Items(items: seq<Item>)
    | Message(message: string)
    | RouteNotFound(message: string, path: string)

  datatype Response = Response(statusCode: int, body: Body)

  const TemperatureResource := "temperature"
  const HumidityResource := "humidity"
  const TemperatureTableEnv := "TEMPERATURE_TABLE_NAME"
  const HumidityTableEnv := "HUMIDITY_TABLE_NAME"

  /** Width of the trailing window, in milliseconds. */
  const WindowMs := 60 * 1000
  const QueryLimit := 100

  /** `event.pathParameters?.resource` */
  function ResourceOf(event: ApiEvent): (r: Option<string>)
    ensures r.Some? <==> event.pathParameters.Some? && "resource" in event.pathParameters.value
    ensures r.Some? ==> r.value == event.pathParameters.value["resource"]
  {
    match event.pathParameters
    case None => None
    case Some(params) => if "resource" in params then Some(params["resource"]) else None
  }

  /** The sensor whose readings a resource serves. */
  function SensorOf(resource: string): string
  {
    resource + "_sensor_1"
  }

  /** The query sent for `resource`: its sensor, strictly newer than one minute ago, at most 100 items. */
  function BuildQuery(tableName: string, resource: string, now: int): (q: Query)
    ensures q.tableName == tableName && q.deviceId == resource + "_sensor_1"
    ensures q.since == now - 60000 && q.limit == 100
  {
    Query(tableName, SensorOf(resource), now - WindowMs, QueryLimit)
  }

  /** The items the query returns from `table`. */
  function LastMinute(table: Table, resource: string, now: int): seq<Item>
  {
    Window(table, SensorOf(resource), now - WindowMs, QueryLimit, ScanIndexForward)
  }

  /** Largest integer a JavaScript number holds exactly: 2^53 - 1. */
  const MaxSafeInteger: nat := 0x1F_FFFF_FFFF_FFFF

  /** The document client turns every number attribute into a JavaScript number; an integer
      above MaxSafeInteger becomes a BigInt instead, which `JSON.stringify` rejects. So an item
      reaches the response body only when each of its integer attributes fits. */
  predicate JsonSafe(item: Item)
  {
    forall a :: a in item && item[a].N? ==>
      match Decimal.Parse(item[a].n)
      case None => true
      case Some(v) => v <= MaxSafeInteger
  }

  predicate AllJsonSafe(items: seq<Item>)
  {
    forall i :: 0 <= i < |items| ==> JsonSafe(items[i])
  }

  /** Looks up the table for one metric, queries it and shapes the response. */
  function BaseHandler(tableNameEnv: string, resource: string, env: Env, now: int, tables: Tables, reachable: bool): (r: Response)
    ensures r.statusCode == 200 || r.statusCode == 500
    ensures r.statusCode == 200 <==>
      && tableNameEnv in env && env[tableNameEnv] != "" && reachable && env[tableNameEnv] in tables
      && AllJsonSafe(LastMinute(tables[env[tableNameEnv]], resource, now))
    ensures r.statusCode == 200 ==>
      && tableNameEnv in env && env[tableNameEnv] in tables
      && r.body == Items(LastMinute(tables[env[tableNameEnv]], resource, now))
      && |r.body.items| <= QueryLimit
    ensures Truthy(env, tableNameEnv).None? ==> r == Response(500, Message(tableNameEnv + " name not configured"))
    ensures Truthy(env, tableNameEnv).Some? && r.statusCode == 500 ==>
      r.body == Message("Failed to fetch " + resource + " data")
  {
    match Truthy(env, tableNameEnv)
    case None => Response(500, Message(tableNameEnv + " name not configured"))
    case Some(tableName) =>
      match RunQuery(tables, reachable, BuildQuery(tableName, resource, now))
      case Success(items) =>
        if AllJsonSafe(items) then Response(200, Items(items))
        else Response(500, Message("Failed to fetch " + resource + " data"))
      case Failure(_) => Response(500, Message("Failed to fetch " + resource + " data"))
  }

  /** The request handler. */
  function Handler(event: ApiEvent, env: Env, now: int, tables: Tables, reachable: bool): (r: Response)
    ensures r.statusCode == 200 || r.statusCode == 404 || r.statusCode == 500
    ensures r.statusCode == 404 <==> ResourceOf(event) != Some(TemperatureResource) && ResourceOf(event) != Some(HumidityResource)
    ensures r.statusCode == 404 ==> r.body == RouteNotFound("Route not found", event.path)
    ensures r.statusCode == 200 ==> r.body.Items? && |r.body.items| <= QueryLimit
  {
    var resource := ResourceOf(event);
    if resource == Some(TemperatureResource) then
      BaseHandler(TemperatureTableEnv, TemperatureResource, env, now, tables, reachable)
    else if resource == Some(HumidityResource) then
      BaseHandler(HumidityTableEnv, HumidityResource, env, now, tables, reachable)
    else
      Response(404, RouteNotFound("Route not found", event.path))
  }

  /** Routing is a closed, case-sensitive choice: exactly "temperature" reads the table named by
      TEMPERATURE_TABLE_NAME and exactly "humidity" the one named by HUMIDITY_TABLE_NAME. */
  lemma RoutesToOwnTable(event: ApiEvent, env: Env, now: int, tables: Tables, reachable: bool)
    ensures ResourceOf(event) == Some(TemperatureResource) ==>
      Handler(event, env, now, tables, reachable) == BaseHandler(TemperatureTableEnv, TemperatureResource, env, now, tables, reachable)
    ensures ResourceOf(event) == Some(HumidityResource) ==>
      Handler(event, env, now, tables, reachable) == BaseHandler(HumidityTableEnv, HumidityResource, env, now, tables, reachable)
    ensures ResourceOf(event) == Some("Temperature") ==> Handler(event, env, now, tables, reachable).statusCode == 404
  {
  }

  /** An unknown or missing resource is answered without touching the store: the response is the
      same whatever the store holds and whether or not it is reachable. */
  lemma UnknownRouteSkipsStore(event: ApiEvent, env: Env, now: int, tables: Tables, reachable: bool, tables': Tables, reachable': bool)
    requires Handler(event, env, now, tables, reachable).statusCode == 404
    ensures Handler(event, env, now, tables', reachable') == Handler(event, env, now, tables, reachable)
  {
  }

  /** An unset or empty table-name variable is reported as a 500 naming that variable, and no
      query is issued: the response does not depend on the store. */
  lemma MissingTableNameSkipsStore(tableNameEnv: string, resource: string, env: Env, now: int, tables: Tables, reachable: bool, tables': Tables, reachable': bool)
    requires tableNameEnv !in env || env[tableNameEnv] == ""
    ensures BaseHandler(tableNameEnv, resource, env, now, tables, reachable)
      == Response(500, Message(tableNameEnv + " name not configured"))
    ensures BaseHandler(tableNameEnv, resource, env, now, tables', reachable')
      == BaseHandler(tableNameEnv, resource, env, now, tables, reachable)
  {
  }

  /** A configured, existing table in a reachable store whose answer converts cleanly is
      answered 200 with exactly the window: the resource's sensor, sort key strictly after
      `now - 60000`, ascending, at most 100 items. In a store whose items are filed under their
      own keys, each item's own `device_id` and `timestamp` are that sensor and that sort key. */
  lemma SuccessIsWindow(tableNameEnv: string, resource: string, env: Env, now: int, tables: Tables)
    requires tableNameEnv in env && env[tableNameEnv] != "" && env[tableNameEnv] in tables
    requires AllJsonSafe(LastMinute(tables[env[tableNameEnv]], resource, now))
    ensures var r := BaseHandler(tableNameEnv, resource, env, now, tables, true);
      var table := tables[env[tableNameEnv]];
      var sensor := resource + "_sensor_1";
      var keys := WindowKeys(table, sensor, now - 60000, 100, true);
      && r.statusCode == 200 && r.body.Items?
      && |r.body.items| == |keys| <= 100
      && Increasing(keys)
      && (forall i :: 0 <= i < |keys| ==>
           && Key(sensor, keys[i]) in table
           && keys[i] > now - 60000
           && r.body.items[i] == table[Key(sensor, keys[i])])
      && (TableWellKeyed(table) ==> forall i :: 0 <= i < |keys| ==> KeyOf(r.body.items[i]) == Some(Key(sensor, keys[i])))
  {
    var table := tables[env[tableNameEnv]];
    if TableWellKeyed(table) {
      WindowItemsCarryKeys(table, SensorOf(resource), now - WindowMs, QueryLimit, ScanIndexForward);
    }
  }

  /** A returned reading whose timestamp exceeds 2^53 - 1 cannot be converted to a JavaScript
      number, so the whole request fails with the generic 500, although the read succeeded. */
  lemma UnsafeTimestampFails(tableNameEnv: string, resource: string, env: Env, now: int, tables: Tables, t: nat)
    requires tableNameEnv in env && env[tableNameEnv] != "" && env[tableNameEnv] in tables
    requires TableWellKeyed(tables[env[tableNameEnv]])
    requires t in WindowKeys(tables[env[tableNameEnv]], SensorOf(resource), now - WindowMs, QueryLimit, ScanIndexForward)
    requires t > MaxSafeInteger
    ensures BaseHandler(tableNameEnv, resource, env, now, tables, true)
      == Response(500, Message("Failed to fetch " + resource + " data"))
  {
    var table := tables[env[tableNameEnv]];
    var keys := WindowKeys(table, SensorOf(resource), now - WindowMs, QueryLimit, ScanIndexForward);
    var items: seq<Item> := LastMinute(table, resource, now);
    WindowItemsCarryKeys(table, SensorOf(resource), now - WindowMs, QueryLimit, ScanIndexForward);
    var i: int :| 0 <= i < |keys| && keys[i] == t;
    assert items[i][SortKeyName].N? && Decimal.Parse(items[i][SortKeyName].n) == Some(t);
    assert SortKeyName in items[i];
    assert !JsonSafe(items[i]);
  }

  /** The cap keeps the earliest readings of the window: a reading of the sensor inside the
      window that is missing from a 200 answer means the answer is full (100 items) and every
      item in it is older than the missing one. */
  lemma OverfullWindowKeepsEarliest(tableNameEnv: string, resource: string, env: Env, now: int, tables: Tables, reachable: bool, t: nat)
    requires BaseHandler(tableNameEnv, resource, env, now, tables, reachable).statusCode == 200
    requires tableNameEnv in env && env[tableNameEnv] in tables
    requires Key(SensorOf(resource), t) in tables[env[tableNameEnv]] && t > now - WindowMs
    requires t !in WindowKeys(tables[env[tableNameEnv]], SensorOf(resource), now - WindowMs, QueryLimit, ScanIndexForward)
    ensures var keys := WindowKeys(tables[env[tableNameEnv]], SensorOf(resource), now - WindowMs, QueryLimit, ScanIndexForward);
      && |BaseHandler(tableNameEnv, resource, env, now, tables, reachable).body.items| == QueryLimit
      && forall i :: 0 <= i < |keys| ==> keys[i] < t
  {
    WindowKeepsEarliest(tables[env[tableNameEnv]], SensorOf(resource), now - WindowMs, QueryLimit, t);
  }

  /** A store failure (unreachable store, or the configured table does not exist) becomes a 500
      with a generic message naming only the resource. */
  lemma StoreFailureIsGeneric(tableNameEnv: string, resource: string, env: Env, now: int, tables: Tables, reachable: bool)
    requires tableNameEnv in env && env[tableNameEnv] != ""
    requires !reachable || env[tableNameEnv] !in tables
    ensures BaseHandler(tableNameEnv, resource, env, now, tables, reachable)
      == Response(500, Message("Failed to fetch " + resource + " data"))
  {
  }

  /** A temperature request never sees humidity data: when the two variables name different
      tables, the answer does not depend on what the humidity table holds. */
  lemma TemperatureIgnoresHumidityTable(event: ApiEvent, env: Env, now: int, tables: Tables, reachable: bool, humidity: Table)
    requires ResourceOf(event) == Some(TemperatureResource)
    requires TemperatureTableEnv in env && HumidityTableEnv in env
    requires env[TemperatureTableEnv] != env[HumidityTableEnv]
    ensures var changed := tables[env[HumidityTableEnv] := humidity];
      Handler(event, env, now, changed, reachable) == Handler(event, env, now, tables, reachable)
  {
    var changed := tables[env[HumidityTableEnv] := humidity];
    if env[TemperatureTableEnv] != "" {
      QueryIsolated(tables, changed, reachable, BuildQuery(env[TemperatureTableEnv], TemperatureResource, now));
    }
  }

  /** And symmetrically for humidity requests. */
  lemma HumidityIgnoresTemperatureTable(event: ApiEvent, env: Env, now: int, tables: Tables, reachable: bool, temperature: Table)
    requires ResourceOf(event) == Some(HumidityResource)
    requires TemperatureTableEnv in env && HumidityTableEnv in env
    requires env[TemperatureTableEnv] != env[HumidityTableEnv]
    ensures var changed := tables[env[TemperatureTableEnv] := temperature];
      Handler(event, env, now, changed, reachable) == Handler(event, env, now, tables, reachable)
  {
    var changed := tables[env[TemperatureTableEnv] := temperature];
    if env[HumidityTableEnv] != "" {
      QueryIsolated(tables, changed, reachable, BuildQuery(env[HumidityTableEnv], HumidityResource, now));
    }
  }
}
