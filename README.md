# Insider-threat risk scoring: feature rules and dashboard filters

This project models the repository's own logic in two scripts. The library calls around that logic are not modelled.

- `dataExploration.py` turns three activity logs into one row per (user, date):
  - logon, HTTP and device events are aggregated per key;
  - the three aggregates are outer-joined and zero-filled;
  - calendar, ratio and missingness features are derived;
  - a per-user trailing 3-sample rolling mean of the logon count and its delta are computed;
  - an anomaly score is classified into Low, Medium or High.
- `dashboard.py` turns the sidebar's inputs into SQL text:
  - the `query_conditions` list and the `WHERE` clause;
  - the user and risk-level `IN (...)` lists;
  - the fixed High and High/Medium restrictions added to that clause;
  - the risk-level ordering and the zero-filled histogram table;
  - the weekday names and the cell colouring of `risk_level`.

Modules:

| module | file | models |
|---|---|---|
| `Wrappers` | wrappers.dfy | `Option` |
| `Text` | text.dfy | `sep.join(parts)` and the search for a character |
| `Aggregation` | aggregation.dfy | `dataExploration.py` lines 15-41 |
| `DailyFeatures` | daily_features.dfy | `dataExploration.py` lines 51 and 67-82 |
| `Rolling` | rolling.dfy | `dataExploration.py` lines 75-77 |
| `Risk` | risk.dfy | `dataExploration.py` lines 127-139 |
| `Dashboard` | dashboard.dfy | `dashboard.py` lines 14-20, 177-229, 287-302, 321-517 |

Counts are unbounded naturals. Ratios, means, scores and thresholds are `real`.

The steps that change state are methods with loops:
- `Aggregation.CountActivities` and `Aggregation.AggregateHttp` build a map keyed by (user, date);
- `Rolling.RollingMean3` makes one pass over the sorted table, keeping each user's last two counts;
- `Dashboard.ComposeFilters` appends to `query_conditions` step by step and then assigns `where_clause`.

Each method is proved against a recursive specification function, and the properties are proved about those functions.

## Model

| member | source | states |
|---|---|---|
| `Aggregation.ActivityCount` | dataExploration.py:15-19 | the specification of pandas `count` for one key never exceeds the number of rows |
| `Aggregation.HttpTotalsOf` | dataExploration.py:22-30 | the specification of the HTTP aggregation for one key counts at most one url per row |
| `Aggregation.ActivityCountAbsent` | dataExploration.py:15-19 | a key that occurs in no row of a log has count 0 in that log |
| `Aggregation.HttpTotalsAbsent` | dataExploration.py:22-30 | a key that occurs in no HTTP row has zero request count and zero byte sums |
| `Aggregation.CountActivities` | dataExploration.py:15-19 | the grouped count has one entry per key that occurs in the log, and it holds the number of that key's rows with a non-missing activity |
| `Aggregation.AggregateHttp` | dataExploration.py:22-30 | one entry per key of the HTTP log holding the count of non-missing urls and the sums of the byte columns with missing values skipped |
| `Aggregation.OuterJoin` | dataExploration.py:39-41 | the joined keys are the union of the three aggregates' keys; a key present in an aggregate carries that aggregate's values, and a measure whose aggregate lacks the key is 0 |
| `Aggregation.JoinRowCountBounds` | dataExploration.py:39-41 | the joined table has at least as many rows as each aggregate and at most as many as the three together |
| `Aggregation.BuildDailyAggregates` | dataExploration.py:15-41 | the joined keys are exactly the keys of the three logs; each measure is that log's count or sum for the key, 0 when the key is absent from that log |
| `DailyFeatures.IsWorkingDay` | dataExploration.py:51 | the flag is 1 iff the weekday is below 5, and 0 iff it is 5 or more |
| `DailyFeatures.WeekOfMonth` | dataExploration.py:71 | day d lies in week w exactly when 7(w-1) < d <= 7w |
| `DailyFeatures.WeekOfMonthRange` | dataExploration.py:71 | days 1 to 31 fall in weeks 1 to 5; week 1 is exactly days 1 to 7 |
| `DailyFeatures.IsOffHours` | dataExploration.py:72 | the flag is 1 iff the hour is outside 7..19 |
| `DailyFeatures.SmoothedRatio` | dataExploration.py:67-68 | ratio times (requests + 1) is the count; the ratio lies in 0..count and is 0 iff the count is 0 |
| `DailyFeatures.MissingFlag` | dataExploration.py:80-82 | the flag is 1 iff the count is 0 |
| `DailyFeatures.DeriveFeatures` | dataExploration.py:51-82 | a missing flag is 1 iff its ratio is 0; without HTTP requests each ratio equals its count; week of month lies in 1..5 for days 1..31; a non-working weekday is 5 or 6 |
| `DailyFeatures.ActivityMissingIff` | dataExploration.py:80-82 | `logon_missing`/`device_missing` is 1 iff no row of the log with that key carries an activity |
| `DailyFeatures.HttpMissingIff` | dataExploration.py:80 | `http_missing` is 1 iff no HTTP row with that key carries a url |
| `Rolling.UserHistory` | dataExploration.py:76 | a user's group is never longer than the table |
| `Rolling.LastUpTo` | dataExploration.py:76 | the window holds min(n, length) values, and they are the last ones of the series in order |
| `Rolling.RollingAt` | dataExploration.py:76 | at a user's first row, where `min_periods=1` gives a window of one, the rolling mean is the row's own count |
| `Rolling.LastUpToAppend` | dataExploration.py:76 | the last three values after an append are the last two before it plus the new value |
| `Rolling.UserHistoryStep` | dataExploration.py:76 | adding a row extends only that row's user's group, by its count |
| `Rolling.WindowStep` | dataExploration.py:76 | if the kept map holds each user's last two counts, a row's rolling mean is the mean of its user's kept counts and its own count |
| `Rolling.RecentStep` | dataExploration.py:76 | updating the row's user's entry keeps the invariant for one more row |
| `Rolling.RollingPrefixAt` | dataExploration.py:76 | element i of the specification prefix is the rolling mean of row i |
| `Rolling.RollingMean3` | dataExploration.py:75-76 | one mean per row, and each is the mean of the last min(3, k) counts of the row's user up to and including that row |
| `Rolling.LogonDeltas` | dataExploration.py:77 | one delta per row, and rolling mean plus delta equals the row's count |
| `Rolling.LogonDeltasOfRollingMeans` | dataExploration.py:76-77 | fed the rolling means, each delta is the row's count minus its own rolling mean |
| `Rolling.SumNonNegative` | dataExploration.py:76 | non-negative counts have a non-negative sum |
| `Rolling.UserHistoryFromRows` | dataExploration.py:76 | every value in a user's group is the count of one of that user's rows |
| `Rolling.RollingMeanNonNegative` | dataExploration.py:76 | with non-negative counts the rolling mean is never negative |
| `Rolling.SingleUserHistory` | dataExploration.py:75-76 | in a table of one user, that user's group is the whole count series |
| `Rolling.RollingMeanOfSeries` | dataExploration.py:75-76 | in one user's date-sorted series, the mean at index i is the mean of counts i+1-min(3, i+1) through i |
| `Rolling.CountsWindow` | dataExploration.py:76 | the last three counts of a prefix are the matching slice of the whole series |
| `Risk.RiskScore` | dataExploration.py:127 | the risk score is positive iff the anomaly score is negative |
| `Risk.ClassifyRisk` | dataExploration.py:131-137 | Low iff score < low; Medium iff low <= score < high; High iff score is at or above both cut points |
| `Risk.ClassifyRiskMonotone` | dataExploration.py:128-137 | a higher score never gets a lower level |
| `Risk.ClassifyRiskAntitoneInAnomalyScore` | dataExploration.py:127-139 | a higher anomaly score never gets a higher level |
| `Risk.ClassifyRiskOrderedThresholds` | dataExploration.py:128-137 | with low <= high, High iff score >= high; Low is reached below low and High at high; Medium is reached at low when low < high |
| `Text.Join` | dashboard.py:229 | `sep.join` of no parts is empty, and of some parts begins with the first part |
| `Dashboard.RiskLevelOrderFollowsRank` | dashboard.py:15 | the configured order lists Low, Medium, High at their ranks, with the labels the pipeline writes |
| `Dashboard.QuoteEach` | dashboard.py:197 | one item per selected value, and item i is value i in single quotes |
| `Dashboard.InList` | dashboard.py:197 | the list is empty iff the selection is, and otherwise begins with the first value in quotes |
| `Dashboard.InListCons` | dashboard.py:197 | a list of two or more values is the first quoted value, ", ", then the rest of the list |
| `Dashboard.ParseInListStep` | dashboard.py:197 | reading one quoted value off the front of a list |
| `Dashboard.InListRoundTrip` | dashboard.py:197-198 | for a non-empty selection without quotes (users here, risk levels at lines 210-211), the `IN` list text is read back as exactly the selected values in order |
| `Dashboard.InListQuoteCollision` | dashboard.py:197 | a value containing `', '` makes a one-value list and a two-value list the same text |
| `Dashboard.SplitAtQuote` | dashboard.py:180 | splits at the first quote: the two parts rebuild the text, the first holds no quote, and the second is empty or starts with the quote |
| `Dashboard.DateCondition` | dashboard.py:180 | the date condition is recognised as the date filter (it starts with the inclusive lower bound on `date`) |
| `Dashboard.UserCondition` | dashboard.py:198 | the user condition is recognised as the user filter |
| `Dashboard.RiskLevelCondition` | dashboard.py:211 | the risk-level condition is recognised as the risk-level filter |
| `Dashboard.ParseBoundsRoundTrip` | dashboard.py:180 | any "lower x upper y '" text with quote-free x and y reads back as (x, y) |
| `Dashboard.DateConditionRoundTrip` | dashboard.py:178-180 | the date condition reads back as its start and end dates, bounded by `>=` start and `<=` end |
| `Dashboard.DefaultUserSelection` | dashboard.py:194 | the default is non-empty iff there are between 1 and 999 users, and then it is all of them |
| `Dashboard.QueryConditions` | dashboard.py:177-224 | at most six conditions, and the condition of every active sidebar input is among them |
| `Dashboard.ConditionsThroughCovers` | dashboard.py:177-224 | after the first n inputs, at most n conditions, including the condition of every active one |
| `Dashboard.WhereClause` | dashboard.py:226-229 | the clause is empty iff there is no condition, and otherwise starts with "WHERE " and the first condition |
| `Dashboard.DistinctUsersQuery` | dashboard.py:187 | the users query is the unfiltered one iff there is no condition yet |
| `Dashboard.ComposeFilters` | dashboard.py:177-229 | the users query uses the date condition alone; the script stops iff no user is selected and none exists; otherwise the list is the sidebar's conditions in order and the clause is built from it |
| `Dashboard.ConditionKind` | dashboard.py:180-224 | a condition text is mapped to one of the six sidebar inputs or to "none" |
| `Dashboard.ActiveKindsBelowSorted` | dashboard.py:177-224 | the active inputs below n are listed in increasing order, and an input is listed iff it is active |
| `Dashboard.ConditionOfKind` | dashboard.py:180-224 | the condition an active input appends is recognised as coming from that input |
| `Dashboard.ConditionsThroughKinds` | dashboard.py:177-224 | after the first n inputs, the list's sources are exactly the active ones among them, in sidebar order |
| `Dashboard.QueryConditionsInSidebarOrder` | dashboard.py:177-224 | the whole list's sources are the active inputs in sidebar order |
| `Dashboard.QueryConditionsOrdered` | dashboard.py:177-224 | conditions appear as date, users, risk levels, then logon, http and device spike, each at most once and only when its input is active; nothing else is appended |
| `Dashboard.WhereClauseEmptyIff` | dashboard.py:226-229 | the clause is empty iff no sidebar input contributed a condition |
| `Dashboard.DefaultUserSelectionCondition` | dashboard.py:194-198 | with the default selection, a user condition is present iff there are between 1 and 999 users |
| `Dashboard.WhereClauseAppend` | dashboard.py:226-229 | appending a condition extends a non-empty clause by " AND " and that condition, and turns an empty clause into "WHERE " and that condition |
| `Dashboard.Restrict` | dashboard.py:321 | the restricted clause keeps the clause as its start and ends with the restriction (here and at lines 345, 399, 484, 508); it starts with `WHERE` whenever the clause was empty or a `WHERE` clause |
| `Dashboard.RestrictIsWhereOfExtendedConditions` | dashboard.py:321 | adding a restriction (here and at lines 345, 399, 484, 508) gives the clause of the condition list extended by it, so there is exactly one `WHERE` |
| `Dashboard.FlaggedRestrictionIsRiskLevelFilter` | dashboard.py:399 | the High/Medium restriction is the same text as the risk-level filter for High and Medium |
| `Dashboard.RiskOrderKey` | dashboard.py:291-296 | the key is 1 to 4; keys 1 to 3 are Low, Medium, High in the configured order, and 4 is every other label |
| `Dashboard.RiskOrderKeyFollowsRank` | dashboard.py:291-296 | the query's ordering key of each level is its rank plus one |
| `Dashboard.MatchingRows` | dashboard.py:302 | the rows the left merge matches for a level all have that level, and there are no more of them than query rows |
| `Dashboard.FillLevel` | dashboard.py:302 | a level merges to at least one row, every one of that level |
| `Dashboard.FillLevels` | dashboard.py:302 | the merge has at least one row per level of the left table and no row of another level |
| `Dashboard.ZeroFill` | dashboard.py:301-302 | at least one row per risk level, and only rows of Low, Medium and High |
| `Dashboard.MatchingRowsDistinct` | dashboard.py:302 | with one row per level, the left merge matches no row for an absent level and exactly that level's row otherwise |
| `Dashboard.FillLevelDistinct` | dashboard.py:302 | each level yields one row with the query's count for it, or 0 when it is absent |
| `Dashboard.ZeroFillCounts` | dashboard.py:301-302 | the merged table is exactly Low, Medium, High in that order, each with the query's count or 0 |
| `Dashboard.ZeroFillIgnoresRowOrder` | dashboard.py:301-302 | the merged table does not depend on the order of the query's rows |
| `Dashboard.WeekdayName` | dashboard.py:516-517 | a weekday has a name iff it is 0..6 |
| `Dashboard.WeekdayNamesDistinct` | dashboard.py:516 | different weekdays get different names |
| `Dashboard.WeekendIsNotWorkingDay` | dashboard.py:516 | a weekday is not a working day iff its name is Saturday or Sunday |
| `Dashboard.RiskLevelColor` | dashboard.py:410 | the colour never contains ';' |
| `Dashboard.ColorRiskLevel` | dashboard.py:409-411 | the background colour read back from the style is the level's colour, black for any other value |
| `Dashboard.ColorRiskLevelDistinguishesLevels` | dashboard.py:409-411 | two styles are equal iff their colours are, so Low, Medium and High get three different styles |

## Left out

- Reading the CSV logs and `pd.to_datetime` parsing: the calendar fields of a row are given as a `Calendar` value.
- Null `user` or `date` keys, which `groupby` drops: keys are modelled as non-null.
- The `sort_values(['user', 'date'])` at line 75: rows reach `Rolling.RollingMean3` in that sorted order. The rolling specification reads each user's group in table order, so it does not depend on the rows being contiguous.
- Per-user mean and standard deviation, and the z-score spike flags (lines 54-64): float division by a possibly zero standard deviation.
- `StandardScaler`, `IsolationForest` and the quantile cut points (lines 110-129): the anomaly score and both thresholds are inputs.
- Integer width: pandas counts and byte sums are 64-bit, and the model uses unbounded integers. Overflow is not modelled.
- Floating point: ratios, means and scores are exact reals, so rounding is not modelled.
- The `print` calls and plots of both scripts, and every Streamlit widget, page setting, metric and chart.
- The DuckDB connection and query execution: the distinct-user list `allUsers` is an input, and only the SQL text is modelled, not the rows it selects.
- Queries that only reuse `where_clause` unchanged (KPIs, trend charts): only the clause and the restrictions added to it are modelled.
- A date range that is not two dates: the model adds no date condition, as lines 178-182 do. The NameError the script later raises on the undefined `start_date` is UI flow and is not modelled.
- The export tab (lines 564-593) re-runs `base_query` (line 233), which reuses `where_clause` unchanged, and serialises the result to CSV and Excel. The query execution and the serialisation are not modelled. The earlier draft of that tab (lines 533-560) is commented out.
- `Dashboard.InListRoundTrip`: holds only for values without a single quote. The source does not escape quotes, and `Dashboard.InListQuoteCollision` shows the ambiguity.
- The user list's `.tolist()` order and the multiselect's own order of `selectedUsers`: both are taken as given sequences.
