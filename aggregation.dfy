/**
 * The aggregation stage of the scoring pipeline (dataExploration.py, lines
 * 15-41): per-(user, date) counts and byte sums of the three activity logs
 * and their outer join with zero fill. Counts are unbounded naturals.
 */
module Aggregation {
  import opened Wrappers

  /** The grouping key of every aggregate: `['user', 'date']`. */
  datatype Key = Key(user: string, date: string)

  /**
   * A row of the logon log or of the device log: both are grouped by key and
   * their `activity` column is counted. A missing (NaN) activity is `None`.
   */
  datatype ActivityEvent = ActivityEvent(key: Key, activity: Option<string>)

  /** A row of the HTTP log; any of the aggregated columns may be missing. */
  datatype HttpEvent = HttpEvent(key: Key, url: Option<string>, bytesSent: Option<int>, bytesReceived: Option<int>)

  /** The three measures the HTTP aggregation produces for one key. */
  datatype HttpTotals = HttpTotals(requests: nat, bytesSent: int, bytesReceived: int)

  /** One row of the joined table after `fillna(0)`. */
  datatype DailyAggregate = DailyAggregate(
    logonCount: nat,
    httpRequests: nat,
    httpBytesSent: int,
    httpBytesReceived: int,
    deviceActivityCount: nat)

  /** The keys that occur in an activity log: the groups `groupby` forms. */
  function ActivityKeys(rows: seq<ActivityEvent>): set<Key>
  {
    if rows == [] then {} else ActivityKeys(rows[..|rows| - 1]) + {rows[|rows| - 1].key}
  }

  /** The keys that occur in the HTTP log. */
  function HttpKeys(rows: seq<HttpEvent>): set<Key>
  {
    if rows == [] then {} else HttpKeys(rows[..|rows| - 1]) + {rows[|rows| - 1].key}
  }

  /** pandas `count`: the number of rows with key `k` whose activity is not missing. */
  function ActivityCount(rows: seq<ActivityEvent>, k: Key): (count: nat)
    ensures count <= |rows|
  {
    if rows == [] then 0
    else
      var last := rows[|rows| - 1];
      ActivityCount(rows[..|rows| - 1], k) + (if last.key == k && last.activity.Some? then 1 else 0)
  }

  /** A summed column: pandas `sum` skips missing values. */
  function Present(v: Option<int>): int
  {
    if v.Some? then v.value else 0
  }

  /** The `url` count and the two byte sums of the rows with key `k`. */
  function HttpTotalsOf(rows: seq<HttpEvent>, k: Key): (totals: HttpTotals)
    ensures totals.requests <= |rows|
  {
    if rows == [] then HttpTotals(0, 0, 0)
    else
      var t := HttpTotalsOf(rows[..|rows| - 1], k);
      var last := rows[|rows| - 1];
      if last.key != k then t
      else HttpTotals(
        t.requests + (if last.url.Some? then 1 else 0),
        t.bytesSent + Present(last.bytesSent),
        t.bytesReceived + Present(last.bytesReceived))
  }

  /** A key that never occurs in the log counts nothing. */
  lemma {:induction false} ActivityCountAbsent(rows: seq<ActivityEvent>, k: Key)
    requires k !in ActivityKeys(rows)
    ensures ActivityCount(rows, k) == 0
  {
    if rows != [] {
      ActivityCountAbsent(rows[..|rows| - 1], k);
    }
  }

  /** A key that never occurs in the HTTP log has zero totals. */
  lemma {:induction false} HttpTotalsAbsent(rows: seq<HttpEvent>, k: Key)
    requires k !in HttpKeys(rows)
    ensures HttpTotalsOf(rows, k) == HttpTotals(0, 0, 0)
  {
    if rows != [] {
      HttpTotalsAbsent(rows[..|rows| - 1], k);
    }
  }

  /**
   * `groupby(['user', 'date']).agg({'activity': 'count'})` on the logon or the
   * device log: one entry per key that occurs, holding its activity count.
   */
  method CountActivities(rows: seq<ActivityEvent>) returns (agg: map<Key, nat>)
    ensures agg.Keys == ActivityKeys(rows)
    ensures forall k :: k in agg ==> agg[k] == ActivityCount(rows, k)
  {
    agg := map[];
    var i := 0;
    while i < |rows|
      invariant 0 <= i <= |rows|
      invariant agg.Keys == ActivityKeys(rows[..i])
      invariant forall k :: k in agg ==> agg[k] == ActivityCount(rows[..i], k)
    {
      var r := rows[i];
      assert rows[..i + 1][..i] == rows[..i];
      var old_count := if r.key in agg then agg[r.key] else 0;
      if r.key !in agg {
        ActivityCountAbsent(rows[..i], r.key);
      }
      agg := agg[r.key := old_count + (if r.activity.Some? then 1 else 0)];
      i := i + 1;
    }
    assert rows[..i] == rows;
  }

  /**
   * `groupby(['user', 'date']).agg({'url': 'count', 'bytes_sent': 'sum',
   * 'bytes_received': 'sum'})` on the HTTP log.
   */
  method AggregateHttp(rows: seq<HttpEvent>) returns (agg: map<Key, HttpTotals>)
    ensures agg.Keys == HttpKeys(rows)
    ensures forall k :: k in agg ==> agg[k] == HttpTotalsOf(rows, k)
  {
    agg := map[];
    var i := 0;
    while i < |rows|
      invariant 0 <= i <= |rows|
      invariant agg.Keys == HttpKeys(rows[..i])
      invariant forall k :: k in agg ==> agg[k] == HttpTotalsOf(rows[..i], k)
    {
      var r := rows[i];
      assert rows[..i + 1][..i] == rows[..i];
      var t := if r.key in agg then agg[r.key] else HttpTotals(0, 0, 0);
      if r.key !in agg {
        HttpTotalsAbsent(rows[..i], r.key);
      }
      agg := agg[r.key := HttpTotals(
        t.requests + (if r.url.Some? then 1 else 0),
        t.bytesSent + Present(r.bytesSent),
        t.bytesReceived + Present(r.bytesReceived))];
      i := i + 1;
    }
    assert rows[..i] == rows;
  }

  /**
   * `reduce(merge(..., how='outer'))` over the three aggregates followed by
   * `fillna(0)`: every key of any aggregate gets one row, and a measure
   * whose aggregate lacks the key is 0.
   */
  function OuterJoin(logon: map<Key, nat>, http: map<Key, HttpTotals>, device: map<Key, nat>): (joined: map<Key, DailyAggregate>)
    ensures joined.Keys == logon.Keys + http.Keys + device.Keys
    ensures forall k :: k in joined && k !in logon ==> joined[k].logonCount == 0
    ensures forall k :: k in joined && k !in http ==> joined[k].httpRequests == 0 && joined[k].httpBytesSent == 0 && joined[k].httpBytesReceived == 0
    ensures forall k :: k in joined && k !in device ==> joined[k].deviceActivityCount == 0
    ensures forall k :: k in logon ==> joined[k].logonCount == logon[k]
    ensures forall k :: k in http ==>
      joined[k].httpRequests == http[k].requests &&
      joined[k].httpBytesSent == http[k].bytesSent &&
      joined[k].httpBytesReceived == http[k].bytesReceived
    ensures forall k :: k in device ==> joined[k].deviceActivityCount == device[k]
  {
    map k | k in logon.Keys + http.Keys + device.Keys ::
      var t := if k in http then http[k] else HttpTotals(0, 0, 0);
      DailyAggregate(
        if k in logon then logon[k] else 0,
        t.requests, t.bytesSent, t.bytesReceived,
        if k in device then device[k] else 0)
  }

  /**
   * The joined table has at least as many rows as the largest aggregate and
   * at most as many as the three together.
   */
  lemma JoinRowCountBounds(logon: map<Key, nat>, http: map<Key, HttpTotals>, device: map<Key, nat>)
    ensures var n := |OuterJoin(logon, http, device)|;
      |logon| <= n && |http| <= n && |device| <= n && n <= |logon| + |http| + |device|
  {
    var joined := OuterJoin(logon, http, device);
    assert joined.Keys == logon.Keys + http.Keys + device.Keys;
    SubsetCard(logon.Keys, joined.Keys);
    SubsetCard(http.Keys, joined.Keys);
    SubsetCard(device.Keys, joined.Keys);
    UnionCard(logon.Keys, http.Keys);
    UnionCard(logon.Keys + http.Keys, device.Keys);
  }

  lemma SubsetCard<T>(a: set<T>, b: set<T>)
    requires a <= b
    ensures |a| <= |b|
  {
    assert b == a + (b - a);
  }

  lemma UnionCard<T>(a: set<T>, b: set<T>)
    ensures |a + b| <= |a| + |b|
  {
    assert a + b == a + (b - a);
    SubsetCard(b - a, b);
  }

  /**
   * The whole aggregation stage (lines 15-41): the joined table has exactly
   * the keys that occur in any of the three logs, and each measure is that
   * log's aggregate for the key, or 0 when the key does not occur in it.
   */
  method BuildDailyAggregates(logons: seq<ActivityEvent>, https: seq<HttpEvent>, devices: seq<ActivityEvent>)
    returns (daily: map<Key, DailyAggregate>)
    ensures daily.Keys == ActivityKeys(logons) + HttpKeys(https) + ActivityKeys(devices)
    ensures forall k :: k in daily ==>
      var t := HttpTotalsOf(https, k);
      daily[k] == DailyAggregate(ActivityCount(logons, k), t.requests, t.bytesSent, t.bytesReceived, ActivityCount(devices, k))
  {
    var logonAgg := CountActivities(logons);
    var httpAgg := AggregateHttp(https);
    var deviceAgg := CountActivities(devices);
    daily := OuterJoin(logonAgg, httpAgg, deviceAgg);
    forall k | k in daily
      ensures var t := HttpTotalsOf(https, k);
        daily[k] == DailyAggregate(ActivityCount(logons, k), t.requests, t.bytesSent, t.bytesReceived, ActivityCount(devices, k))
    {
      if k !in logonAgg { ActivityCountAbsent(logons, k); }
      if k !in httpAgg { HttpTotalsAbsent(https, k); }
      if k !in deviceAgg { ActivityCountAbsent(devices, k); }
    }
  }
}
