/**
 * The per-row features of the scoring pipeline (dataExploration.py, lines
 * 51 and 67-82): calendar flags, +1-smoothed ratios and missingness flags.
 * Ratios are reals (no floating point).
 */
module DailyFeatures {
  import opened Aggregation

  /** The calendar fields pandas derives from the parsed `date` column. */
  datatype Calendar = Calendar(year: int, month: int, day: int, weekday: int, hour: int, minute: int)

  /** `1 if x < 5 else 0` on the weekday (Monday = 0, Sunday = 6). */
  function IsWorkingDay(weekday: int): (flag: int)
    ensures flag == 1 <==> weekday < 5
    ensures flag == 0 <==> weekday >= 5
  {
    if weekday < 5 then 1 else 0
  }

  /**
   * `(d - 1) // 7 + 1`: the 7-day block of the month that holds day `d`.
   * Dafny's `/` by a positive divisor rounds down like Python's `//`.
   */
  function WeekOfMonth(day: int): (week: int)
    ensures 7 * (week - 1) < day <= 7 * week
  {
    (day - 1) / 7 + 1
  }

  /** Days 1 to 31 fall in weeks 1 to 5, and week 1 is exactly days 1 to 7. */
  lemma WeekOfMonthRange(day: int)
    requires 1 <= day <= 31
    ensures 1 <= WeekOfMonth(day) <= 5
    ensures WeekOfMonth(day) == 1 <==> day <= 7
  {
  }

  /** `1 if (h < 7 or h > 19) else 0`: outside the 07:00-19:59 working window. */
  function IsOffHours(hour: int): (flag: int)
    ensures flag == 1 <==> !(7 <= hour <= 19)
    ensures flag == 0 <==> 7 <= hour <= 19
  {
    if hour < 7 || hour > 19 then 1 else 0
  }

  /**
   * `count / (http_requests + 1)`: a ratio whose denominator is at least 1,
   * so it is defined for every row, is never negative and never exceeds the
   * count itself.
   */
  function SmoothedRatio(count: nat, httpRequests: nat): (ratio: real)
    ensures ratio * (httpRequests + 1) as real == count as real
    ensures 0.0 <= ratio <= count as real
    ensures ratio == 0.0 <==> count == 0
  {
    var r := count as real / (httpRequests + 1) as real;
    assert r * (httpRequests + 1) as real == count as real;
    r
  }

  /** `(count == 0).astype(int)`. */
  function MissingFlag(count: nat): (flag: int)
    ensures flag == 1 <==> count == 0
    ensures flag == 0 <==> count > 0
  {
    if count == 0 then 1 else 0
  }

  /** The derived per-row features other than the per-user ones. */
  datatype RowFeatures = RowFeatures(
    isWorkingDay: int,
    weekOfMonth: int,
    isOffHours: int,
    deviceHttpRatio: real,
    logonHttpRatio: real,
    httpMissing: int,
    deviceMissing: int,
    logonMissing: int)

  /** Lines 51 and 67-82, applied to one joined row and its calendar fields. */
  function DeriveFeatures(a: DailyAggregate, c: Calendar): (f: RowFeatures)
    ensures f.logonMissing == 1 <==> f.logonHttpRatio == 0.0
    ensures f.deviceMissing == 1 <==> f.deviceHttpRatio == 0.0
    ensures f.httpMissing == 1 ==>
      f.deviceHttpRatio == a.deviceActivityCount as real && f.logonHttpRatio == a.logonCount as real
    ensures 1 <= c.day <= 31 ==> 1 <= f.weekOfMonth <= 5
    ensures f.isWorkingDay == 0 && 0 <= c.weekday <= 6 ==> c.weekday in {5, 6}
  {
    RowFeatures(
      IsWorkingDay(c.weekday),
      WeekOfMonth(c.day),
      IsOffHours(c.hour),
      SmoothedRatio(a.deviceActivityCount, a.httpRequests),
      SmoothedRatio(a.logonCount, a.httpRequests),
      MissingFlag(a.httpRequests),
      MissingFlag(a.deviceActivityCount),
      MissingFlag(a.logonCount))
  }

  /**
   * `logon_missing` (and `device_missing`) of a joined key is 1 exactly when
   * no row of that log with the key carries an activity: either the key is
   * absent from the log, or all its activities are missing.
   */
  lemma {:induction false} ActivityMissingIff(rows: seq<ActivityEvent>, k: Key)
    ensures MissingFlag(ActivityCount(rows, k)) == 1 <==>
      forall j :: 0 <= j < |rows| && rows[j].key == k ==> rows[j].activity.None?
  {
    if rows != [] {
      var init := rows[..|rows| - 1];
      ActivityMissingIff(init, k);
      assert forall j :: 0 <= j < |init| ==> init[j] == rows[j];
    }
  }

  /** `http_missing` of a joined key is 1 exactly when no HTTP row with the key has a url. */
  lemma {:induction false} HttpMissingIff(rows: seq<HttpEvent>, k: Key)
    ensures MissingFlag(HttpTotalsOf(rows, k).requests) == 1 <==>
      forall j :: 0 <= j < |rows| && rows[j].key == k ==> rows[j].url.None?
  {
    if rows != [] {
      var init := rows[..|rows| - 1];
      HttpMissingIff(init, k);
      assert forall j :: 0 <= j < |init| ==> init[j] == rows[j];
    }
  }
}
