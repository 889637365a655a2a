/**
 * The per-user trailing 3-sample rolling mean of the logon count and its
 * delta (dataExploration.py, lines 75-77). Means are reals.
 */
module Rolling {

  /** A row of the table sorted by `['user', 'date']`, as far as the rolling mean reads it. */
  datatype LogonSample = LogonSample(user: string, logonCount: int)

  /** The logon counts of user `u` among `rows`, in table order: that user's group. */
  function UserHistory(rows: seq<LogonSample>, u: string): (h: seq<int>)
    ensures |h| <= |rows|
  {
    if rows == [] then []
    else
      var last := rows[|rows| - 1];
      UserHistory(rows[..|rows| - 1], u) + (if last.user == u then [last.logonCount] else [])
  }

  function Sum(xs: seq<int>): int
  {
    if xs == [] then 0 else Sum(xs[..|xs| - 1]) + xs[|xs| - 1]
  }

  function Min(a: int, b: int): int
  {
    if a < b then a else b
  }

  /** The last `min(n, |xs|)` elements of `xs`. */
  function LastUpTo(xs: seq<int>, n: nat): (w: seq<int>)
    ensures |w| == Min(n, |xs|)
    ensures forall j :: 0 <= j < |w| ==> w[j] == xs[|xs| - |w| + j]
  {
    if |xs| <= n then xs else xs[|xs| - n..]
  }

  /** The arithmetic mean of a non-empty window. */
  function Mean(window: seq<int>): real
    requires window != []
  {
    Sum(window) as real / |window| as real
  }

  /** `rolling(3, min_periods=1).mean()` at the end of a series: the mean of its last min(3, n) values. */
  function TrailingMean(xs: seq<int>): real
    requires xs != []
  {
    Mean(LastUpTo(xs, 3))
  }

  /**
   * `logon_rolling_3` of row `i`: the trailing mean of its user's group up to
   * and including row `i`, that is the user's counts in the rows before `i`
   * followed by the count of row `i`.
   */
  function RollingAt(rows: seq<LogonSample>, i: nat): (mean: real)
    requires i < |rows|
    ensures UserHistory(rows[..i], rows[i].user) == [] ==> mean == rows[i].logonCount as real
  {
    var history := UserHistory(rows[..i], rows[i].user) + [rows[i].logonCount];
    assert history == [rows[i].logonCount] ==> Sum(LastUpTo(history, 3)) == rows[i].logonCount by {
      assert [rows[i].logonCount][..0] == [];
    }
    TrailingMean(history)
  }

  /** Keeping the last two values and then appending one gives the last three. */
  lemma LastUpToAppend(xs: seq<int>, x: int)
    ensures LastUpTo(xs + [x], 3) == LastUpTo(xs, 2) + [x]
    ensures LastUpTo(xs + [x], 2) == LastUpTo(LastUpTo(xs, 2) + [x], 2)
  {
    var n := |xs|;
    if n > 2 {
      assert (xs + [x])[n + 1 - 3..] == xs[n - 2..] + [x];
      assert (xs + [x])[n + 1 - 2..] == (xs[n - 2..] + [x])[1..];
    }
  }

  /** Extending the table by one row extends only that row's user's group. */
  lemma UserHistoryStep(rows: seq<LogonSample>, i: nat, u: string)
    requires i < |rows|
    ensures UserHistory(rows[..i + 1], u)
      == UserHistory(rows[..i], u) + (if rows[i].user == u then [rows[i].logonCount] else [])
  {
    assert rows[..i + 1][..i] == rows[..i];
  }

  /** The most recent values (at most two) kept for `u`, empty before its first row. */
  function Recent(recent: map<string, seq<int>>, u: string): seq<int>
  {
    if u in recent then recent[u] else []
  }

  /** The invariant of the pass: `recent` holds each user's last two counts among the first `i` rows. */
  ghost predicate RecentInvariant(rows: seq<LogonSample>, i: nat, recent: map<string, seq<int>>)
    requires i <= |rows|
  {
    forall u {:trigger Recent(recent, u)} :: Recent(recent, u) == LastUpTo(UserHistory(rows[..i], u), 2)
  }

  /** One step of the pass: `logon_rolling_3` of row `i` is the mean of the kept values and its count. */
  lemma WindowStep(rows: seq<LogonSample>, i: nat, recent: map<string, seq<int>>)
    requires i < |rows|
    requires RecentInvariant(rows, i, recent)
    ensures RollingAt(rows, i) == Mean(Recent(recent, rows[i].user) + [rows[i].logonCount])
  {
    var r := rows[i];
    LastUpToAppend(UserHistory(rows[..i], r.user), r.logonCount);
  }

  /** One step of the pass: the updated map keeps the invariant for one more row. */
  lemma RecentStep(rows: seq<LogonSample>, i: nat, recent: map<string, seq<int>>)
    requires i < |rows|
    requires RecentInvariant(rows, i, recent)
    ensures RecentInvariant(rows, i + 1, recent[rows[i].user := LastUpTo(Recent(recent, rows[i].user) + [rows[i].logonCount], 2)])
  {
    var r := rows[i];
    var window := Recent(recent, r.user) + [r.logonCount];
    var next := recent[r.user := LastUpTo(window, 2)];
    forall u
      ensures Recent(next, u) == LastUpTo(UserHistory(rows[..i + 1], u), 2)
    {
      var before := UserHistory(rows[..i], u);
      assert Recent(recent, u) == LastUpTo(before, 2);
      UserHistoryStep(rows, i, u);
      if u == r.user {
        assert Recent(next, u) == LastUpTo(window, 2);
        LastUpToAppend(before, r.logonCount);
      } else {
        assert Recent(next, u) == Recent(recent, u);
        assert UserHistory(rows[..i + 1], u) == before;
      }
    }
  }

  /** `logon_rolling_3` of the first `n` rows. */
  function RollingPrefix(rows: seq<LogonSample>, n: nat): (means: seq<real>)
    requires n <= |rows|
    ensures |means| == n
  {
    if n == 0 then [] else RollingPrefix(rows, n - 1) + [RollingAt(rows, n - 1)]
  }

  lemma {:induction false} RollingPrefixAt(rows: seq<LogonSample>, n: nat, i: nat)
    requires i < n <= |rows|
    ensures RollingPrefix(rows, n)[i] == RollingAt(rows, i)
  {
    if i < n - 1 {
      RollingPrefixAt(rows, n - 1, i);
    }
  }

  /**
   * Line 76: `logon_rolling_3` for every row of the sorted table, in one pass
   * that keeps each user's last two counts.
   */
  method RollingMean3(rows: seq<LogonSample>) returns (means: seq<real>)
    ensures |means| == |rows|
    ensures forall i :: 0 <= i < |rows| ==> means[i] == RollingAt(rows, i)
  {
    var recent: map<string, seq<int>> := map[];
    means := [];
    var i := 0;
    while i < |rows|
      invariant 0 <= i <= |rows|
      invariant means == RollingPrefix(rows, i)
      invariant RecentInvariant(rows, i, recent)
    {
      var r := rows[i];
      var window := Recent(recent, r.user) + [r.logonCount];
      WindowStep(rows, i, recent);
      RecentStep(rows, i, recent);
      means := means + [Mean(window)];
      recent := recent[r.user := LastUpTo(window, 2)];
      i := i + 1;
    }
    forall j | 0 <= j < |rows|
      ensures means[j] == RollingAt(rows, j)
    {
      RollingPrefixAt(rows, |rows|, j);
    }
  }

  /**
   * Line 77: `logon_delta`, the column difference `logon_count - logon_rolling_3`;
   * each row's count is its rolling mean plus its delta.
   */
  function LogonDeltas(rows: seq<LogonSample>, means: seq<real>): (deltas: seq<real>)
    requires |means| == |rows|
    ensures |deltas| == |rows|
    ensures forall i :: 0 <= i < |rows| ==> means[i] + deltas[i] == rows[i].logonCount as real
  {
    seq(|rows|, i requires 0 <= i < |rows| => rows[i].logonCount as real - means[i])
  }

  /** Fed the rolling means, each delta is the row's count minus its own rolling mean. */
  lemma LogonDeltasOfRollingMeans(rows: seq<LogonSample>, i: nat)
    requires i < |rows|
    ensures LogonDeltas(rows, RollingPrefix(rows, |rows|))[i] == rows[i].logonCount as real - RollingAt(rows, i)
  {
    RollingPrefixAt(rows, |rows|, i);
  }

  /** A series of non-negative counts has a non-negative sum. */
  lemma {:induction false} SumNonNegative(xs: seq<int>)
    requires forall j :: 0 <= j < |xs| ==> xs[j] >= 0
    ensures Sum(xs) >= 0
  {
    if xs != [] {
      SumNonNegative(xs[..|xs| - 1]);
    }
  }

  /** Every value of a user's history is the count of one of the rows. */
  lemma {:induction false} UserHistoryFromRows(rows: seq<LogonSample>, u: string, j: nat)
    requires j < |UserHistory(rows, u)|
    ensures exists i :: 0 <= i < |rows| && rows[i].user == u && rows[i].logonCount == UserHistory(rows, u)[j]
  {
    var init := rows[..|rows| - 1];
    var h := UserHistory(init, u);
    if j < |h| {
      UserHistoryFromRows(init, u, j);
      var i :| 0 <= i < |init| && init[i].user == u && init[i].logonCount == h[j];
      assert rows[i] == init[i];
    } else {
      assert rows[|rows| - 1].user == u;
    }
  }

  /** With non-negative counts, `logon_rolling_3` is never negative. */
  lemma RollingMeanNonNegative(rows: seq<LogonSample>, i: nat)
    requires i < |rows|
    requires forall j :: 0 <= j < |rows| ==> rows[j].logonCount >= 0
    ensures RollingAt(rows, i) >= 0.0
  {
    var before := UserHistory(rows[..i], rows[i].user);
    var h := before + [rows[i].logonCount];
    var window := LastUpTo(h, 3);
    forall j | 0 <= j < |window|
      ensures window[j] >= 0
    {
      var k := |h| - |window| + j;
      if k < |before| {
        UserHistoryFromRows(rows[..i], rows[i].user, k);
      }
    }
    SumNonNegative(window);
  }

  /** In a table that holds one user's series only, the group is the whole series. */
  lemma {:induction false} SingleUserHistory(rows: seq<LogonSample>, u: string)
    requires forall j :: 0 <= j < |rows| ==> rows[j].user == u
    ensures UserHistory(rows, u) == Counts(rows)
  {
    if rows != [] {
      var init := rows[..|rows| - 1];
      SingleUserHistory(init, u);
      assert Counts(rows) == Counts(init) + [rows[|rows| - 1].logonCount];
    }
  }

  /** The logon counts of a series. */
  function Counts(rows: seq<LogonSample>): seq<int>
  {
    seq(|rows|, j requires 0 <= j < |rows| => rows[j].logonCount)
  }

  /**
   * In one user's date-sorted series, `logon_rolling_3` at index `i` is the
   * mean of the last min(3, i + 1) counts: a window of 1 and 2 values at the
   * first two rows, of 3 afterwards.
   */
  lemma RollingMeanOfSeries(rows: seq<LogonSample>, u: string, i: nat)
    requires i < |rows|
    requires forall j :: 0 <= j < |rows| ==> rows[j].user == u
    ensures var w := Min(3, i + 1);
      RollingAt(rows, i) == Mean(Counts(rows)[i + 1 - w..i + 1])
  {
    SingleUserHistory(rows[..i], u);
    assert Counts(rows[..i]) + [rows[i].logonCount] == Counts(rows[..i + 1]);
    CountsWindow(rows, i);
  }

  /** The last three counts of a prefix are a slice of the counts of the whole series. */
  lemma CountsWindow(rows: seq<LogonSample>, i: nat)
    requires i < |rows|
    ensures var w := Min(3, i + 1);
      LastUpTo(Counts(rows[..i + 1]), 3) == Counts(rows)[i + 1 - w..i + 1]
  {
    assert Counts(rows[..i + 1]) == Counts(rows)[..i + 1];
  }
}
