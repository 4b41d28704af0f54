/** The key-value backing store the handlers talk to: one table per metric, items keyed by
    the partition key `device_id` (a string) and the sort key `timestamp` (a number).
    Items are attribute maps, as the write path sends them. Whether the store answers at
    all is a parameter of each call (`reachable`). */
module Storage {
  import opened Common
  import Decimal

  /** A typed attribute: `S` a string, `N` a number carried as its decimal text. */
  datatype AttributeValue = S(s: string) | N(n: string)

  type Item = map<string, AttributeValue>

  datatype Key = Key(deviceId: string, timestamp: nat)

  type Table = map<Key, Item>

  /** All tables of the store, by table name. */
  type Tables = map<string, Table>

  datatype StoreError =
    | Unreachable        // the service did not answer
    | ResourceNotFound   // no table of that name
    | ValidationError    // the item's key attributes are missing, mistyped or empty

  const PartitionKeyName := "device_id"
  const SortKeyName := "timestamp"

  /** The primary key an item carries, when its key attributes are well formed:
      a non-empty string partition key and an integer sort key. */
  function KeyOf(item: Item): Option<Key>
  {
    if PartitionKeyName in item && item[PartitionKeyName].S? && item[PartitionKeyName].s != ""
       && SortKeyName in item && item[SortKeyName].N? && Decimal.Parse(item[SortKeyName].n).Some?
    then Some(Key(item[PartitionKeyName].s, Decimal.Parse(item[SortKeyName].n).value))
    else None
  }

  /** Every item of the table is filed under the key it carries. */
  ghost predicate TableWellKeyed(table: Table)
  {
    forall k :: k in table ==> KeyOf(table[k]) == Some(k)
  }

  /** Every item of every table is filed under the key it carries. */
  ghost predicate WellKeyed(tables: Tables)
  {
    forall name :: name in tables ==> TableWellKeyed(tables[name])
  }

  // ---------------------------------------------------------------- write path

  /** A put of `item` into table `name`: replaces whatever was stored under the item's key. */
  function ApplyPut(tables: Tables, name: string, item: Item, reachable: bool): (r: Result<Tables, StoreError>)
    ensures r.Success? <==> reachable && name in tables && KeyOf(item).Some?
    ensures r == Failure(Unreachable) <==> !reachable
    ensures r == Failure(ResourceNotFound) <==> reachable && name !in tables
    ensures r.Success? ==> r.value.Keys == tables.Keys
  {
    if !reachable then Failure(Unreachable)
    else if name !in tables then Failure(ResourceNotFound)
    else match KeyOf(item)
      case None => Failure(ValidationError)
      case Some(k) => Success(tables[name := tables[name][k := item]])
  }

  /** After a put, the item is stored under its key, and no other key and no other table changed. */
  lemma PutStoresItem(tables: Tables, name: string, item: Item, reachable: bool)
    requires ApplyPut(tables, name, item, reachable).Success?
    ensures var t := ApplyPut(tables, name, item, reachable).value;
      && var k := KeyOf(item).value;
      && t[name].Keys == tables[name].Keys + {k}
      && t[name][k] == item
      && (forall other :: other in tables[name] && other != k ==> t[name][other] == tables[name][other])
      && (forall n :: n in tables && n != name ==> t[n] == tables[n])
  {
  }

  /** Putting the same item twice leaves the store as one put does: redelivery is harmless. */
  lemma PutIdempotent(tables: Tables, name: string, item: Item, reachable: bool)
    requires ApplyPut(tables, name, item, reachable).Success?
    ensures var once := ApplyPut(tables, name, item, reachable).value;
      ApplyPut(once, name, item, reachable) == Success(once)
  {
    var once := ApplyPut(tables, name, item, reachable).value;
    var k := KeyOf(item).value;
    assert once[name][k := item] == once[name];
    assert once[name := once[name]] == once;
  }

  /** Of two puts under the same key, the second one wins: the store is as if only it had happened. */
  lemma PutLastWriteWins(tables: Tables, name: string, first: Item, second: Item)
    requires ApplyPut(tables, name, first, true).Success?
    requires KeyOf(second) == KeyOf(first)
    ensures var mid := ApplyPut(tables, name, first, true).value;
      ApplyPut(mid, name, second, true) == ApplyPut(tables, name, second, true)
  {
    var k := KeyOf(first).value;
    var mid := ApplyPut(tables, name, first, true).value;
    assert mid[name][k := second] == tables[name][k := second];
    assert mid[name := mid[name][k := second]] == tables[name := tables[name][k := second]];
  }

  /** Every successful put keeps each item filed under its own key. */
  lemma PutPreservesWellKeyed(tables: Tables, name: string, item: Item, reachable: bool)
    requires WellKeyed(tables)
    requires ApplyPut(tables, name, item, reachable).Success?
    ensures WellKeyed(ApplyPut(tables, name, item, reachable).value)
  {
  }

  // ---------------------------------------------------------------- read path

  /** A key-condition query: `device_id = deviceId AND timestamp > since`, at most `limit` items. */
  datatype Query = Query(tableName: string, deviceId: string, since: int, limit: nat)

  /** ASSUMPTION. A query that does not set `ScanIndexForward` gets the store's default,
      which returns items in ascending sort-key order and applies the limit in that order. */
  const ScanIndexForward: bool := true

  /** The sort keys of `deviceId`'s items newer than `since`. */
  function Matching(table: Table, deviceId: string, since: int): set<nat>
  {
    set k | k in table && k.deviceId == deviceId && k.timestamp > since :: k.timestamp
  }

  lemma MatchingMeans(table: Table, deviceId: string, since: int, t: nat)
    ensures t in Matching(table, deviceId, since) <==> Key(deviceId, t) in table && t > since
  {
    if Key(deviceId, t) in table && t > since {
      assert Key(deviceId, t).timestamp == t;
    }
  }

  predicate Increasing(s: seq<nat>)
  {
    forall i, j :: 0 <= i < j < |s| ==> s[i] < s[j]
  }

  predicate Decreasing(s: seq<nat>)
  {
    forall i, j :: 0 <= i < j < |s| ==> s[i] > s[j]
  }

  predicate IsLeast(m: nat, s: set<nat>)
  {
    m in s && forall t :: t in s ==> m <= t
  }

  lemma {:induction false} MinExists(s: set<nat>)
    requires s != {}
    ensures exists m :: IsLeast(m, s)
    decreases |s|
  {
    var x :| x in s;
    var rest := s - {x};
    if rest == {} {
      forall t | t in s
        ensures x <= t
      {
        assert t !in rest;
      }
      assert IsLeast(x, s);
    } else {
      MinExists(rest);
      var m :| IsLeast(m, rest);
      var least := if x < m then x else m;
      forall t | t in s
        ensures least <= t
      {
        if t != x {
          assert t in rest;
        }
      }
      assert IsLeast(least, s);
    }
  }

  function Least(s: set<nat>): (m: nat)
    requires s != {}
    ensures m in s && forall t :: t in s ==> m <= t
  {
    MinExists(s);
    var m :| IsLeast(m, s); m
  }

  /** The elements of a finite set of sort keys, smallest first. */
  function Ascending(s: set<nat>): (r: seq<nat>)
    ensures |r| == |s|
    ensures forall t :: t in r <==> t in s
    ensures Increasing(r)
    decreases |s|
  {
    if s == {} then []
    else
      var m := Least(s);
      [m] + Ascending(s - {m})
  }

  function Reversed(s: seq<nat>): (r: seq<nat>)
    ensures |r| == |s|
    ensures forall i :: 0 <= i < |s| ==> r[i] == s[|s| - 1 - i]
  {
    seq(|s|, i requires 0 <= i < |s| => s[|s| - 1 - i])
  }

  function Take(s: seq<nat>, n: nat): (r: seq<nat>)
    ensures |r| <= n && |r| <= |s|
    ensures forall i :: 0 <= i < |r| ==> r[i] == s[i]
  {
    if |s| <= n then s else s[..n]
  }

  /** The matching sort keys in the order the query walks them. */
  function Arranged(table: Table, deviceId: string, since: int, forward: bool): seq<nat>
  {
    var order := Ascending(Matching(table, deviceId, since));
    if forward then order else Reversed(order)
  }

  lemma ArrangedFacts(table: Table, deviceId: string, since: int, forward: bool, limit: nat)
    ensures var r := Take(Arranged(table, deviceId, since, forward), limit);
      && (forall i :: 0 <= i < |r| ==> Key(deviceId, r[i]) in table && r[i] > since)
      && (forward ==> Increasing(r))
      && (!forward ==> Decreasing(r))
  {
    var arranged := Arranged(table, deviceId, since, forward);
    var r := Take(arranged, limit);
    forall i | 0 <= i < |r|
      ensures Key(deviceId, r[i]) in table && r[i] > since
    {
      assert r[i] in arranged;
      MatchingMeans(table, deviceId, since, r[i]);
    }
  }

  /** The sort keys a query returns, in the order it returns them. */
  function WindowKeys(table: Table, deviceId: string, since: int, limit: nat, forward: bool): (r: seq<nat>)
    ensures |r| <= limit
    ensures forall i :: 0 <= i < |r| ==> Key(deviceId, r[i]) in table && r[i] > since
    ensures forward ==> Increasing(r)
    ensures !forward ==> Decreasing(r)
  {
    ArrangedFacts(table, deviceId, since, forward, limit);
    Take(Arranged(table, deviceId, since, forward), limit)
  }

  /** The items a query returns. */
  function Window(table: Table, deviceId: string, since: int, limit: nat, forward: bool): (r: seq<Item>)
    ensures var keys := WindowKeys(table, deviceId, since, limit, forward);
      |r| == |keys| && forall i :: 0 <= i < |r| ==> r[i] == table[Key(deviceId, keys[i])]
  {
    var keys := WindowKeys(table, deviceId, since, limit, forward);
    seq(|keys|, i requires 0 <= i < |keys| => table[Key(deviceId, keys[i])])
  }

  /** In a table whose items are filed under their own keys, every item a query returns carries
      the queried device id as its `device_id` and the returned sort key as its `timestamp`. */
  lemma WindowItemsCarryKeys(table: Table, deviceId: string, since: int, limit: nat, forward: bool)
    requires TableWellKeyed(table)
    ensures var r := Window(table, deviceId, since, limit, forward);
      var keys := WindowKeys(table, deviceId, since, limit, forward);
      forall i :: 0 <= i < |r| ==>
        && KeyOf(r[i]) == Some(Key(deviceId, keys[i]))
        && r[i][PartitionKeyName] == S(deviceId)
        && r[i][SortKeyName].N?
        && Decimal.Parse(r[i][SortKeyName].n) == Some(keys[i])
        && keys[i] > since
  {
    var r := Window(table, deviceId, since, limit, forward);
    var keys := WindowKeys(table, deviceId, since, limit, forward);
    forall i | 0 <= i < |r|
      ensures KeyOf(r[i]) == Some(Key(deviceId, keys[i]))
    {
      assert Key(deviceId, keys[i]) in table;
    }
  }

  /** Running a query against the store. */
  function RunQuery(tables: Tables, reachable: bool, q: Query): (r: Result<seq<Item>, StoreError>)
    ensures r.Success? <==> reachable && q.tableName in tables
    ensures r.Success? ==> |r.value| <= q.limit
  {
    if !reachable then Failure(Unreachable)
    else if q.tableName !in tables then Failure(ResourceNotFound)
    else Success(Window(tables[q.tableName], q.deviceId, q.since, q.limit, ScanIndexForward))
  }

  /** When the window holds no more than `limit` items, all of them come back. */
  lemma {:induction false} WindowComplete(table: Table, deviceId: string, since: int, limit: nat, forward: bool, t: nat)
    requires |Matching(table, deviceId, since)| <= limit
    requires Key(deviceId, t) in table && t > since
    ensures t in WindowKeys(table, deviceId, since, limit, forward)
  {
    MatchingMeans(table, deviceId, since, t);
    var order := Ascending(Matching(table, deviceId, since));
    if !forward {
      var k :| 0 <= k < |order| && order[k] == t;
      assert Reversed(order)[|order| - 1 - k] == t;
    }
  }

  /** Ascending order keeps the earliest items: a newer-than-`since` item that is left out
      is later than every item returned, and it is left out only when the limit is reached. */
  lemma {:induction false} WindowKeepsEarliest(table: Table, deviceId: string, since: int, limit: nat, t: nat)
    requires Key(deviceId, t) in table && t > since
    requires t !in WindowKeys(table, deviceId, since, limit, true)
    ensures var r := WindowKeys(table, deviceId, since, limit, true);
      |r| == limit && forall i :: 0 <= i < |r| ==> r[i] < t
  {
    MatchingMeans(table, deviceId, since, t);
    var order := Ascending(Matching(table, deviceId, since));
    var j :| 0 <= j < |order| && order[j] == t;
    assert j >= limit;
  }

  /** Descending order keeps the latest items: a left-out item is earlier than every item returned. */
  lemma {:induction false} WindowKeepsLatest(table: Table, deviceId: string, since: int, limit: nat, t: nat)
    requires Key(deviceId, t) in table && t > since
    requires t !in WindowKeys(table, deviceId, since, limit, false)
    ensures var r := WindowKeys(table, deviceId, since, limit, false);
      |r| == limit && forall i :: 0 <= i < |r| ==> r[i] > t
  {
    MatchingMeans(table, deviceId, since, t);
    var order := Ascending(Matching(table, deviceId, since));
    var j :| 0 <= j < |order| && order[j] == t;
    var rev := Reversed(order);
    assert rev[|order| - 1 - j] == t;
    assert |order| - 1 - j >= limit;
  }

  /** A query only sees its own table: changing any other table does not change its answer. */
  lemma QueryIsolated(tables: Tables, other: Tables, reachable: bool, q: Query)
    requires q.tableName in tables <==> q.tableName in other
    requires q.tableName in tables ==> tables[q.tableName] == other[q.tableName]
    ensures RunQuery(tables, reachable, q) == RunQuery(other, reachable, q)
  {
  }

  // ---------------------------------------------------------------- the store object

  /** The store as the write path sees it: tables updated in place by puts. */
  class Store {
    var tables: Tables

    ghost predicate Valid()
      reads this
    {
      WellKeyed(tables)
    }

    constructor (initial: Tables)
      requires WellKeyed(initial)
      ensures Valid() && tables == initial
    {
      tables := initial;
    }

    /** Put `item` into table `name`; on failure nothing changes. */
    method Put(name: string, item: Item, reachable: bool) returns (r: Result<(), StoreError>)
      requires Valid()
      modifies this
      ensures Valid()
      ensures match ApplyPut(old(tables), name, item, reachable)
        case Success(t) => r == Success(()) && tables == t
        case Failure(e) => r == Failure(e) && tables == old(tables)
    {
      var outcome := ApplyPut(tables, name, item, reachable);
      match outcome {
        case Success(t) =>
          PutPreservesWellKeyed(tables, name, item, reachable);
          tables := t;
          r := Success(());
        case Failure(e) =>
          r := Failure(e);
      }
    }
  }
}
