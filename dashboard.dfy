/**
 * The filter-clause composition and result shaping of the risk dashboard
 * (dashboard.py): the sidebar inputs become a list of SQL conditions, the
 * list becomes one `WHERE` clause, fixed risk-level restrictions extend that
 * clause, and query results are reshaped (zero-filled risk-level histogram,
 * weekday names, risk-level colours). Only the clause strings are modelled;
 * what the query engine selects with them is not.
 */
module Dashboard {
  import opened Wrappers
  import opened Text
  import Risk
  import DailyFeatures

  const DATE_COLUMN := "date"

  /** `RISK_LEVEL_ORDER`: the fixed display order of the risk levels. */
  const RISK_LEVEL_ORDER: seq<string> := ["Low", "Medium", "High"]

  /** The display order lists the pipeline's level names by rank. */
  lemma RiskLevelOrderFollowsRank(level: Risk.RiskLevel)
    ensures |RISK_LEVEL_ORDER| == 3
    ensures RISK_LEVEL_ORDER[level.Rank()] == level.Name()
  {
  }

  // ----- `IN (...)` lists -----

  /** `f"'{v}'"`. */
  function Quote(v: string): string
  {
    "'" + v + "'"
  }

  function QuoteEach(vs: seq<string>): (qs: seq<string>)
    ensures |qs| == |vs|
    ensures forall i :: 0 <= i < |vs| ==> qs[i] == Quote(vs[i])
  {
    if vs == [] then [] else [Quote(vs[0])] + QuoteEach(vs[1..])
  }

  /** `", ".join(f"'{v}'" for v in values)`. */
  function InList(vs: seq<string>): (list: string)
    ensures list == "" <==> vs == []
    ensures vs != [] ==> Quote(vs[0]) <= list
  {
    Join(", ", QuoteEach(vs))
  }

  ghost predicate QuoteFree(vs: seq<string>)
  {
    forall i :: 0 <= i < |vs| ==> '\'' !in vs[i]
  }

  /**
   * Reads back an `IN` list: quoted values separated by ", ". This is the
   * reading a SQL engine gives the list when no value contains a quote.
   */
  function ParseInList(s: string): Option<seq<string>>
    decreases |s|
  {
    if s == [] || s[0] != '\'' then None
    else
      var (value, tail) := SplitAtQuote(s[1..]);
      if tail == [] then None
      else
        var rest := tail[1..];
        if rest == [] then Some([value])
        else if ", " <= rest then
          match ParseInList(rest[2..])
          case Some(values) => Some([value] + values)
          case None => None
        else None
  }

  /** One step of the reading: a quoted value without quotes, then what follows it. */
  lemma ParseInListStep(v: string, rest: string)
    requires '\'' !in v
    ensures ParseInList("'" + v + "'" + rest)
      == if rest == [] then Some([v])
         else if ", " <= rest then
           match ParseInList(rest[2..])
           case Some(values) => Some([v] + values)
           case None => None
         else None
  {
    var s := "'" + v + "'" + rest;
    assert s[1..] == v + ['\''] + rest;
    SplitAtQuoteAfter(v, rest);
    assert (['\''] + rest)[1..] == rest;
  }

  lemma InListCons(v: string, vs: seq<string>)
    requires vs != []
    ensures InList([v] + vs) == Quote(v) + ", " + InList(vs)
  {
    assert ([v] + vs)[1..] == vs;
    assert QuoteEach([v] + vs)[1..] == QuoteEach(vs);
  }

  /**
   * For a non-empty selection of values without quotes, the `IN` list reads
   * back as exactly the selection, in selection order.
   */
  lemma {:induction false} InListRoundTrip(vs: seq<string>)
    requires vs != []
    requires QuoteFree(vs)
    ensures ParseInList(InList(vs)) == Some(vs)
  {
    var v := vs[0];
    assert '\'' !in v;
    if |vs| == 1 {
      assert InList(vs) == "'" + v + "'" + "";
      ParseInListStep(v, "");
      assert vs == [v];
    } else {
      var tail := vs[1..];
      assert vs == [v] + tail;
      InListCons(v, tail);
      assert InList(vs) == "'" + v + "'" + (", " + InList(tail));
      ParseInListStep(v, ", " + InList(tail));
      assert (", " + InList(tail))[2..] == InList(tail);
      assert QuoteFree(tail) by {
        forall i | 0 <= i < |tail| ensures '\'' !in tail[i] {
          assert tail[i] == vs[i + 1];
        }
      }
      InListRoundTrip(tail);
    }
  }

  /**
   * A value that contains a quote makes the list ambiguous: selecting the
   * single user `a', 'b` renders the same list as selecting `a` and `b`.
   */
  lemma InListQuoteCollision()
    ensures InList(["a', 'b"]) == InList(["a", "b"])
  {
    assert InList(["a', 'b"]) == "'a', 'b'";
    InListCons("a", ["b"]);
  }

  // ----- the conditions -----

  /** The text before the lower bound and the text between the two bounds. */
  const DATE_LOWER := DATE_COLUMN + " >= '"
  const DATE_UPPER := "' AND " + DATE_COLUMN + " <= '"

  /** Line 180: the date range, inclusive at both ends; it is recognised as the date filter. */
  function DateCondition(start: string, end: string): (c: string)
    ensures ConditionKind(c) == 0
  {
    var c := DATE_LOWER + start + DATE_UPPER + end + "'";
    assert c == DATE_LOWER + (start + DATE_UPPER + end + "'");
    c
  }

  /** Splits `s` before its first quote. */
  function SplitAtQuote(s: string): (parts: (string, string))
    ensures parts.0 + parts.1 == s
    ensures '\'' !in parts.0
    ensures parts.1 == [] || parts.1[0] == '\''
  {
    var k := IndexOf(s, '\'');
    assert s[..k] + s[k..] == s;
    (s[..k], s[k..])
  }

  /** In `x + "'" + rest` with no quote in `x`, the first quote is the one right after `x`. */
  lemma SplitAtQuoteAfter(x: string, rest: string)
    requires '\'' !in x
    ensures SplitAtQuote(x + ['\''] + rest) == (x, ['\''] + rest)
  {
    var s := x + ['\''] + rest;
    IndexOfAfter(x, '\'', rest);
    assert s[..|x|] == x;
    assert s[|x|..] == ['\''] + rest;
  }

  /**
   * Reads back the two quoted values of `lower + x + upper + y + "'"`: `x`
   * ends at the first quote after `lower`, `y` at the first quote after `upper`.
   */
  function ParseBounds(c: string, lower: string, upper: string): Option<(string, string)>
  {
    if !(lower <= c) then None
    else
      var (x, tail) := SplitAtQuote(c[|lower|..]);
      if !(upper <= tail) then None
      else
        var (y, end) := SplitAtQuote(tail[|upper|..]);
        if end != "'" then None else Some((x, y))
  }

  /** Reads back the lower and the upper bound of a date-range condition. */
  function ParseDateCondition(c: string): Option<(string, string)>
  {
    ParseBounds(c, DATE_LOWER, DATE_UPPER)
  }

  lemma ParseBoundsUnfold(c: string, lower: string, upper: string, x: string, tail: string, y: string)
    requires lower <= c && SplitAtQuote(c[|lower|..]) == (x, tail)
    requires upper <= tail && SplitAtQuote(tail[|upper|..]) == (y, "'")
    ensures ParseBounds(c, lower, upper) == Some((x, y))
  {
  }

  lemma FirstBoundSplit(lower: string, upper: string, x: string, y: string)
    requires upper != [] && upper[0] == '\''
    requires '\'' !in x
    ensures SplitAtQuote((lower + x + upper + y + "'")[|lower|..]) == (x, upper + y + "'")
  {
    var t := upper + y + "'";
    var r := upper[1..] + y + "'";
    assert lower + x + upper + y + "'" == lower + (x + t);
    assert (lower + (x + t))[|lower|..] == x + t;
    assert t == ['\''] + r by {
      assert upper == ['\''] + upper[1..];
    }
    assert x + t == x + ['\''] + r;
    SplitAtQuoteAfter(x, r);
  }

  lemma SecondBoundSplit(upper: string, y: string)
    requires '\'' !in y
    ensures SplitAtQuote((upper + y + "'")[|upper|..]) == (y, "'")
  {
    assert (upper + y + "'")[|upper|..] == y + ['\''] + "";
    SplitAtQuoteAfter(y, "");
  }

  lemma ParseBoundsRoundTrip(lower: string, upper: string, x: string, y: string)
    requires upper != [] && upper[0] == '\''
    requires '\'' !in x && '\'' !in y
    ensures ParseBounds(lower + x + upper + y + "'", lower, upper) == Some((x, y))
  {
    var c := lower + x + upper + y + "'";
    var tail := upper + y + "'";
    assert lower <= c;
    assert upper <= tail;
    FirstBoundSplit(lower, upper, x, y);
    SecondBoundSplit(upper, y);
    ParseBoundsUnfold(c, lower, upper, x, tail, y);
  }

  /**
   * The date condition is `date >= 'start' AND date <= 'end'`: for dates
   * without quotes (every rendered calendar date), its lower bound reads
   * back as `start` and its upper bound as `end`.
   */
  lemma DateConditionRoundTrip(start: string, end: string)
    requires '\'' !in start && '\'' !in end
    ensures ParseDateCondition(DateCondition(start, end)) == Some((start, end))
  {
    ParseBoundsRoundTrip(DATE_LOWER, DATE_UPPER, start, end);
  }

  /** Line 198; it is recognised as the user filter. */
  function UserCondition(users: seq<string>): (c: string)
    ensures ConditionKind(c) == 1
  {
    var c := "user IN (" + InList(users) + ")";
    assert c == "user IN (" + (InList(users) + ")");
    NotPrefixAt(DATE_LOWER, c, 0);
    c
  }

  /** Line 211; it is recognised as the risk-level filter. */
  function RiskLevelCondition(levels: seq<string>): (c: string)
    ensures ConditionKind(c) == 2
  {
    var c := "risk_level IN (" + InList(levels) + ")";
    assert c == "risk_level IN (" + (InList(levels) + ")");
    NotPrefixAt(DATE_LOWER, c, 0);
    NotPrefixAt("user IN (", c, 0);
    c
  }

  const LOGON_SPIKE_CONDITION := "logon_spike = TRUE"
  const HTTP_SPIKE_CONDITION := "http_spike = TRUE"
  const DEVICE_SPIKE_CONDITION := "device_spike = TRUE"

  // ----- the sidebar and the condition list -----

  /**
   * The sidebar's values in one run of the script. `allUsers` is the result
   * of the distinct-user query (line 187), which the query engine computes.
   */
  datatype Sidebar = Sidebar(
    dateRange: seq<string>,
    allUsers: seq<string>,
    selectedUsers: seq<string>,
    selectedRiskLevels: seq<string>,
    logonSpike: bool,
    httpSpike: bool,
    deviceSpike: bool)

  /** Line 194: every user when there are fewer than 1000, none otherwise. */
  function DefaultUserSelection(allUsers: seq<string>): (selection: seq<string>)
    ensures selection != [] <==> 0 < |allUsers| < 1000
    ensures selection != [] ==> selection == allUsers
  {
    if |allUsers| < 1000 then allUsers else []
  }

  /** `conditions.append(condition)` when `present`. */
  function AppendIf(conditions: seq<string>, present: bool, condition: string): seq<string>
  {
    if present then conditions + [condition] else conditions
  }

  /** The condition the sidebar input of kind `kind` contributes when it is active. */
  function ConditionOf(s: Sidebar, kind: nat): string
  {
    match kind
    case 0 => if |s.dateRange| == 2 then DateCondition(s.dateRange[0], s.dateRange[1]) else ""
    case 1 => UserCondition(s.selectedUsers)
    case 2 => RiskLevelCondition(s.selectedRiskLevels)
    case 3 => LOGON_SPIKE_CONDITION
    case 4 => HTTP_SPIKE_CONDITION
    case 5 => DEVICE_SPIKE_CONDITION
    case _ => ""
  }

  /**
   * `query_conditions` after the first `n` sidebar inputs (date range,
   * users, risk levels, logon, http and device spike) have been read.
   */
  function ConditionsThrough(s: Sidebar, n: nat): seq<string>
  {
    if n == 0 then [] else AppendIf(ConditionsThrough(s, n - 1), Active(s, n - 1), ConditionOf(s, n - 1))
  }

  /**
   * The full `query_conditions` list of lines 177-224: at most one condition
   * per sidebar input, and the condition of every active input.
   */
  function QueryConditions(s: Sidebar): (conditions: seq<string>)
    ensures |conditions| <= 6
    ensures forall kind: nat :: kind < 6 && Active(s, kind) ==> ConditionOf(s, kind) in conditions
  {
    ConditionsThroughCovers(s, 6);
    ConditionsThrough(s, 6)
  }

  /** After the first `n` inputs the list has at most `n` conditions, among them every active input's. */
  lemma {:induction false} ConditionsThroughCovers(s: Sidebar, n: nat)
    ensures |ConditionsThrough(s, n)| <= n
    ensures forall kind: nat :: kind < n && Active(s, kind) ==> ConditionOf(s, kind) in ConditionsThrough(s, n)
  {
    if n > 0 {
      ConditionsThroughCovers(s, n - 1);
    }
  }

  const WHERE := "WHERE "
  const AND := " AND "
  const USERS_QUERY_HEAD := "SELECT DISTINCT user FROM user_data "
  const USERS_QUERY_TAIL := " ORDER BY user"

  /** Lines 226-229: empty without conditions, else `WHERE` and the conditions joined by ` AND `. */
  function WhereClause(conditions: seq<string>): (clause: string)
    ensures clause == "" <==> conditions == []
    ensures conditions != [] ==> WHERE + conditions[0] <= clause
  {
    if conditions == [] then "" else WHERE + Join(AND, conditions)
  }

  /** Line 187: the user list is unfiltered exactly when there is no condition yet. */
  function DistinctUsersQuery(conditions: seq<string>): (query: string)
    ensures query == USERS_QUERY_HEAD + USERS_QUERY_TAIL <==> conditions == []
  {
    USERS_QUERY_HEAD + WhereClause(conditions) + USERS_QUERY_TAIL
  }

  /** The end of the filter stage: either the script stops, or it goes on with a clause. */
  datatype FilterOutcome =
    | Stopped(usersQuery: string)
    | Filtered(usersQuery: string, conditions: seq<string>, whereClause: string)

  /**
   * Lines 177-229: the condition list is built by appends in sidebar order,
   * the user list is queried under the date condition alone, the script
   * stops when no user is selected and none exists, and otherwise the
   * clause is built from the whole list.
   */
  method ComposeFilters(s: Sidebar) returns (outcome: FilterOutcome)
    ensures outcome.usersQuery == DistinctUsersQuery(ConditionsThrough(s, 1))
    ensures outcome.Stopped? <==> s.selectedUsers == [] && s.allUsers == []
    ensures outcome.Filtered? ==>
      outcome.conditions == QueryConditions(s) && outcome.whereClause == WhereClause(QueryConditions(s))
  {
    var queryConditions: seq<string> := [];
    if |s.dateRange| == 2 {
      var startDate, endDate := s.dateRange[0], s.dateRange[1];
      queryConditions := queryConditions + [DateCondition(startDate, endDate)];
    }
    assert queryConditions == ConditionsThrough(s, 1);
    var usersQuery := USERS_QUERY_HEAD
      + (if queryConditions != [] then WHERE + Join(AND, queryConditions) else "")
      + USERS_QUERY_TAIL;
    assert usersQuery == DistinctUsersQuery(ConditionsThrough(s, 1));
    if s.selectedUsers != [] {
      queryConditions := queryConditions + [UserCondition(s.selectedUsers)];
    } else if s.allUsers == [] {
      return Stopped(usersQuery);
    }
    assert queryConditions == ConditionsThrough(s, 2);
    if s.selectedRiskLevels != [] {
      queryConditions := queryConditions + [RiskLevelCondition(s.selectedRiskLevels)];
    }
    assert queryConditions == ConditionsThrough(s, 3);
    if s.logonSpike {
      queryConditions := queryConditions + [LOGON_SPIKE_CONDITION];
    }
    assert queryConditions == ConditionsThrough(s, 4);
    if s.httpSpike {
      queryConditions := queryConditions + [HTTP_SPIKE_CONDITION];
    }
    assert queryConditions == ConditionsThrough(s, 5);
    if s.deviceSpike {
      queryConditions := queryConditions + [DEVICE_SPIKE_CONDITION];
    }
    assert queryConditions == ConditionsThrough(s, 6);
    var whereClause := "";
    if queryConditions != [] {
      whereClause := WHERE + Join(AND, queryConditions);
    }
    outcome := Filtered(usersQuery, queryConditions, whereClause);
  }

  /**
   * Which sidebar input a condition comes from, read off its text: 0 date,
   * 1 users, 2 risk levels, 3 logon, 4 http and 5 device spike; 6 for text
   * that none of them produces.
   */
  function ConditionKind(c: string): (kind: nat)
    ensures kind <= 6
  {
    if DATE_LOWER <= c then 0
    else if "user IN (" <= c then 1
    else if "risk_level IN (" <= c then 2
    else if c == LOGON_SPIKE_CONDITION then 3
    else if c == HTTP_SPIKE_CONDITION then 4
    else if c == DEVICE_SPIKE_CONDITION then 5
    else 6
  }

  /** Whether the sidebar input of kind `kind` contributes a condition. */
  predicate Active(s: Sidebar, kind: nat)
  {
    match kind
    case 0 => |s.dateRange| == 2
    case 1 => s.selectedUsers != []
    case 2 => s.selectedRiskLevels != []
    case 3 => s.logonSpike
    case 4 => s.httpSpike
    case 5 => s.deviceSpike
    case _ => false
  }

  /** The kind of each condition of `cs`, in order. */
  ghost function Kinds(cs: seq<string>): (kinds: seq<nat>)
    ensures |kinds| == |cs|
  {
    seq(|cs|, i requires 0 <= i < |cs| => ConditionKind(cs[i]))
  }

  /** `[kind]` when the sidebar input of kind `kind` is active, else nothing. */
  ghost function IfActive(s: Sidebar, kind: nat): seq<nat>
  {
    if Active(s, kind) then [kind] else []
  }

  /** The reference order: the kinds below `n` whose sidebar input is active, in increasing order. */
  ghost function ActiveKindsBelow(s: Sidebar, n: nat): seq<nat>
  {
    if n == 0 then [] else ActiveKindsBelow(s, n - 1) + IfActive(s, n - 1)
  }

  ghost function ActiveKinds(s: Sidebar): seq<nat>
  {
    ActiveKindsBelow(s, 6)
  }

  /** The reference order is strictly increasing and holds exactly the active kinds. */
  lemma {:induction false} ActiveKindsBelowSorted(s: Sidebar, n: nat)
    ensures forall i, j :: 0 <= i < j < |ActiveKindsBelow(s, n)| ==> ActiveKindsBelow(s, n)[i] < ActiveKindsBelow(s, n)[j]
    ensures forall kind: nat :: kind in ActiveKindsBelow(s, n) <==> kind < n && Active(s, kind)
  {
    if n > 0 {
      var init := ActiveKindsBelow(s, n - 1);
      ActiveKindsBelowSorted(s, n - 1);
      var last := IfActive(s, n - 1);
      var all := init + last;
      assert ActiveKindsBelow(s, n) == all;
      forall i, j | 0 <= i < j < |all|
        ensures all[i] < all[j]
      {
        if j >= |init| {
          assert all[i] == init[i] && all[i] in init;
        } else {
          assert all[i] == init[i] && all[j] == init[j];
        }
      }
      forall kind: nat
        ensures kind in all <==> kind < n && Active(s, kind)
      {
        assert kind in all <==> kind in init || kind in last;
      }
    }
  }

  lemma KindsAppendIf(cs: seq<string>, present: bool, c: string, kind: nat)
    requires present ==> ConditionKind(c) == kind
    ensures Kinds(AppendIf(cs, present, c)) == Kinds(cs) + if present then [kind] else []
  {
    if present {
      assert Kinds(cs + [c]) == Kinds(cs) + [kind];
    }
  }

  /** Each active input contributes a condition of its own kind. */
  lemma ConditionOfKind(s: Sidebar, kind: nat)
    requires Active(s, kind)
    ensures ConditionKind(ConditionOf(s, kind)) == kind
  {
    if kind >= 3 {
      SpikeConditionKinds();
    }
  }

  lemma SpikeConditionKinds()
    ensures ConditionKind(LOGON_SPIKE_CONDITION) == 3
    ensures ConditionKind(HTTP_SPIKE_CONDITION) == 4
    ensures ConditionKind(DEVICE_SPIKE_CONDITION) == 5
  {
    NotPrefixAt(DATE_LOWER, LOGON_SPIKE_CONDITION, 0);
    NotPrefixAt("user IN (", LOGON_SPIKE_CONDITION, 0);
    NotPrefixAt("risk_level IN (", LOGON_SPIKE_CONDITION, 0);
    NotPrefixAt(DATE_LOWER, HTTP_SPIKE_CONDITION, 0);
    NotPrefixAt("user IN (", HTTP_SPIKE_CONDITION, 0);
    NotPrefixAt("risk_level IN (", HTTP_SPIKE_CONDITION, 0);
    NotPrefixAt(DATE_LOWER, DEVICE_SPIKE_CONDITION, 1);
    NotPrefixAt("user IN (", DEVICE_SPIKE_CONDITION, 0);
    NotPrefixAt("risk_level IN (", DEVICE_SPIKE_CONDITION, 0);
  }

  /** Texts that differ at a position inside both are not prefixes of one another. */
  lemma NotPrefixAt(a: string, b: string, i: nat)
    requires i < |a| && i < |b| && a[i] != b[i]
    ensures !(a <= b)
  {
  }

  /** After the first `n` inputs, the kinds of the conditions are those of the active inputs among them, in order. */
  lemma {:induction false} ConditionsThroughKinds(s: Sidebar, n: nat)
    ensures Kinds(ConditionsThrough(s, n)) == ActiveKindsBelow(s, n)
  {
    if n > 0 {
      ConditionsThroughKinds(s, n - 1);
      if Active(s, n - 1) {
        ConditionOfKind(s, n - 1);
      }
      KindsAppendIf(ConditionsThrough(s, n - 1), Active(s, n - 1), ConditionOf(s, n - 1), n - 1);
    }
  }

  /**
   * Lines 178-224: the conditions come in the order date, users, risk
   * levels, logon, http, device spike, one for each active sidebar input
   * and nothing else.
   */
  lemma QueryConditionsInSidebarOrder(s: Sidebar)
    ensures Kinds(QueryConditions(s)) == ActiveKinds(s)
  {
    ConditionsThroughKinds(s, 6);
  }

  /**
   * Hence the conditions are in strictly increasing kind order, so each
   * sidebar input contributes at most one, and a kind occurs exactly when
   * its input is active.
   */
  lemma QueryConditionsOrdered(s: Sidebar)
    ensures forall i, j :: 0 <= i < j < |QueryConditions(s)| ==>
      ConditionKind(QueryConditions(s)[i]) < ConditionKind(QueryConditions(s)[j])
    ensures forall kind :: kind in Kinds(QueryConditions(s)) <==> kind < 6 && Active(s, kind)
  {
    QueryConditionsInSidebarOrder(s);
    ActiveKindsBelowSorted(s, 6);
    var cs := QueryConditions(s);
    forall i, j | 0 <= i < j < |cs|
      ensures ConditionKind(cs[i]) < ConditionKind(cs[j])
    {
      assert Kinds(cs)[i] == ConditionKind(cs[i]) && Kinds(cs)[j] == ConditionKind(cs[j]);
    }
  }

  /** `where_clause` is empty exactly when no condition was collected. */
  lemma WhereClauseEmptyIff(s: Sidebar)
    ensures WhereClause(QueryConditions(s)) == "" <==> forall kind :: 0 <= kind < 6 ==> !Active(s, kind)
  {
    var cs := QueryConditions(s);
    QueryConditionsOrdered(s);
    if cs != [] {
      assert WhereClause(cs)[0] == 'W';
      assert Kinds(cs)[0] in Kinds(cs);
    } else {
      forall kind: nat | kind < 6
        ensures !Active(s, kind)
      {
        assert kind !in Kinds(cs);
      }
    }
  }

  /** With the sidebar's default user selection, a user condition is added iff there are 1 to 999 users. */
  lemma DefaultUserSelectionCondition(s: Sidebar)
    requires s.selectedUsers == DefaultUserSelection(s.allUsers)
    ensures 1 in Kinds(QueryConditions(s)) <==> 0 < |s.allUsers| < 1000
  {
    QueryConditionsOrdered(s);
  }

  /** Each append of a condition extends the clause at its end: conditions keep their insertion order. */
  lemma WhereClauseAppend(conditions: seq<string>, c: string)
    ensures WhereClause(conditions + [c])
      == if conditions == [] then WHERE + c else WhereClause(conditions) + AND + c
  {
    if conditions == [] {
      assert [] + [c] == [c];
    } else {
      JoinAppend(AND, conditions, c);
    }
  }

  // ----- the fixed restrictions of the per-chart queries -----

  /**
   * Lines 321, 345, 399, 484, 508: `where_clause + (' AND ' + restriction if
   * where_clause else 'WHERE ' + restriction)`.
   */
  function Restrict(whereClause: string, restriction: string): (restricted: string)
    ensures whereClause <= restricted
    ensures |restriction| < |restricted|
    ensures restricted[|restricted| - |restriction|..] == restriction
    ensures whereClause == "" || WHERE <= whereClause ==> WHERE <= restricted
  {
    whereClause + (if whereClause != "" then AND + restriction else WHERE + restriction)
  }

  const HIGH_RISK_RESTRICTION := "risk_level = 'High'"
  const FLAGGED_RESTRICTION := "risk_level IN ('High', 'Medium')"

  /**
   * A restricted clause is the single `WHERE` clause of the collected
   * conditions followed by the restriction, whether or not any condition
   * was collected.
   */
  lemma RestrictIsWhereOfExtendedConditions(conditions: seq<string>, restriction: string)
    ensures Restrict(WhereClause(conditions), restriction) == WhereClause(conditions + [restriction])
  {
    WhereClauseAppend(conditions, restriction);
    if conditions != [] {
      assert WhereClause(conditions)[0] == 'W';
    }
  }

  /** The High/Medium restriction is the risk-level filter the sidebar would build for High and Medium. */
  lemma FlaggedRestrictionIsRiskLevelFilter()
    ensures FLAGGED_RESTRICTION == RiskLevelCondition(["High", "Medium"])
  {
    var list := InList(["High", "Medium"]);
    InListCons("High", ["Medium"]);
    assert list == Quote("High") + ", " + Quote("Medium");
    assert FLAGGED_RESTRICTION == "risk_level IN (" + Quote("High") + ", " + Quote("Medium") + ")";
  }

  // ----- result shaping -----

  /**
   * Lines 291-296: the `ORDER BY CASE` key, the 1-based position of the
   * level in `RISK_LEVEL_ORDER`, and 4 for anything else.
   */
  function RiskOrderKey(level: string): (key: int)
    ensures 1 <= key <= 4
    ensures key < 4 ==> RISK_LEVEL_ORDER[key - 1] == level
    ensures key == 4 <==> level !in RISK_LEVEL_ORDER
  {
    if level == "Low" then 1
    else if level == "Medium" then 2
    else if level == "High" then 3
    else 4
  }

  /** The `ORDER BY` key sorts the pipeline's levels by rank. */
  lemma RiskOrderKeyFollowsRank(level: Risk.RiskLevel)
    ensures RiskOrderKey(level.Name()) == level.Rank() + 1
  {
  }

  /** A row of the risk-level count query. */
  datatype LevelCount = LevelCount(level: string, count: int)

  /** The query rows with a given level, in query order. */
  function MatchingRows(rows: seq<LevelCount>, level: string): (matches: seq<LevelCount>)
    ensures |matches| <= |rows|
    ensures forall i :: 0 <= i < |matches| ==> matches[i].level == level
  {
    if rows == [] then []
    else (if rows[0].level == level then [rows[0]] else []) + MatchingRows(rows[1..], level)
  }

  /** `pd.merge(levels, rows, how='left').fillna(0)`: one row per match, or a zero row. */
  function FillLevels(levels: seq<string>, rows: seq<LevelCount>): (filled: seq<LevelCount>)
    ensures |filled| >= |levels|
    ensures forall i :: 0 <= i < |filled| ==> filled[i].level in levels
  {
    if levels == [] then [] else FillLevel(rows, levels[0]) + FillLevels(levels[1..], rows)
  }

  /** The merged rows of one level: its matches, or one zero row. */
  function FillLevel(rows: seq<LevelCount>, level: string): (filled: seq<LevelCount>)
    ensures |filled| >= 1
    ensures forall i :: 0 <= i < |filled| ==> filled[i].level == level
  {
    var matches := MatchingRows(rows, level);
    if matches == [] then [LevelCount(level, 0)] else matches
  }

  /** Lines 301-302: at least one row per level, and no row of any other level. */
  function ZeroFill(rows: seq<LevelCount>): (filled: seq<LevelCount>)
    ensures |filled| >= 3
    ensures forall i :: 0 <= i < |filled| ==> filled[i].level in RISK_LEVEL_ORDER
  {
    FillLevels(RISK_LEVEL_ORDER, rows)
  }

  /** `GROUP BY risk_level` returns each level at most once. */
  ghost predicate DistinctLevels(rows: seq<LevelCount>)
  {
    forall i, j :: 0 <= i < j < |rows| ==> rows[i].level != rows[j].level
  }

  lemma {:induction false} MatchingRowsDistinct(rows: seq<LevelCount>, level: string)
    requires DistinctLevels(rows)
    ensures MatchingRows(rows, level) == [] <==> forall j :: 0 <= j < |rows| ==> rows[j].level != level
    ensures forall j :: 0 <= j < |rows| && rows[j].level == level ==> MatchingRows(rows, level) == [rows[j]]
  {
    if rows != [] {
      var tail := rows[1..];
      assert DistinctLevels(tail) by {
        forall i, j | 0 <= i < j < |tail| ensures tail[i].level != tail[j].level {
          assert tail[i] == rows[i + 1] && tail[j] == rows[j + 1];
        }
      }
      MatchingRowsDistinct(tail, level);
      forall j | 0 <= j < |rows| && rows[j].level == level
        ensures MatchingRows(rows, level) == [rows[j]]
      {
        if j == 0 {
          forall k | 0 <= k < |tail| ensures tail[k].level != level {
            assert tail[k] == rows[k + 1];
          }
        } else {
          assert tail[j - 1] == rows[j];
        }
      }
      if forall j :: 0 <= j < |rows| ==> rows[j].level != level {
        forall k | 0 <= k < |tail| ensures tail[k].level != level {
          assert tail[k] == rows[k + 1];
        }
      }
    }
  }

  /**
   * After the merge, the table has exactly the rows Low, Medium, High in that
   * order; each count is the query's count for that level, or 0 when the
   * query has no row for it.
   */
  lemma ZeroFillCounts(rows: seq<LevelCount>)
    requires DistinctLevels(rows)
    ensures |ZeroFill(rows)| == 3
    ensures forall i :: 0 <= i < 3 ==> ZeroFill(rows)[i].level == RISK_LEVEL_ORDER[i]
    ensures forall i, j :: 0 <= i < 3 && 0 <= j < |rows| && rows[j].level == RISK_LEVEL_ORDER[i] ==>
      ZeroFill(rows)[i].count == rows[j].count
    ensures forall i :: 0 <= i < 3 && (forall j :: 0 <= j < |rows| ==> rows[j].level != RISK_LEVEL_ORDER[i]) ==>
      ZeroFill(rows)[i].count == 0
  {
    FillLevelDistinct(rows, "Low");
    FillLevelDistinct(rows, "Medium");
    FillLevelDistinct(rows, "High");
    var high := ["High"];
    var mediumHigh := ["Medium", "High"];
    assert high[1..] == [] && mediumHigh[1..] == high && RISK_LEVEL_ORDER[1..] == mediumHigh;
    assert FillLevels(high, rows) == FillLevel(rows, "High") + FillLevels([], rows);
    assert FillLevels(mediumHigh, rows) == FillLevel(rows, "Medium") + FillLevels(high, rows);
    assert ZeroFill(rows) == FillLevel(rows, "Low") + FillLevels(mediumHigh, rows);
  }

  /** With distinct levels, a level merges to exactly one row carrying its count, or 0. */
  lemma FillLevelDistinct(rows: seq<LevelCount>, level: string)
    requires DistinctLevels(rows)
    ensures |FillLevel(rows, level)| == 1 && FillLevel(rows, level)[0].level == level
    ensures forall j :: 0 <= j < |rows| && rows[j].level == level ==> FillLevel(rows, level)[0].count == rows[j].count
    ensures (forall j :: 0 <= j < |rows| ==> rows[j].level != level) ==> FillLevel(rows, level)[0].count == 0
  {
    MatchingRowsDistinct(rows, level);
    if MatchingRows(rows, level) != [] {
      var j :| 0 <= j < |rows| && rows[j].level == level;
    }
  }

  /**
   * The `ORDER BY CASE` of the query does not matter: any order of the same
   * query rows gives the same zero-filled table.
   */
  lemma ZeroFillIgnoresRowOrder(rows: seq<LevelCount>, reordered: seq<LevelCount>)
    requires DistinctLevels(rows) && DistinctLevels(reordered)
    requires forall x :: x in rows <==> x in reordered
    ensures ZeroFill(rows) == ZeroFill(reordered)
  {
    ZeroFillCounts(rows);
    ZeroFillCounts(reordered);
    var a, b := ZeroFill(rows), ZeroFill(reordered);
    forall i | 0 <= i < 3
      ensures a[i] == b[i]
    {
      var level := RISK_LEVEL_ORDER[i];
      if j :| 0 <= j < |rows| && rows[j].level == level {
        assert rows[j] in reordered;
        var k :| 0 <= k < |reordered| && reordered[k] == rows[j];
      } else {
        forall k | 0 <= k < |reordered|
          ensures reordered[k].level != level
        {
          assert reordered[k] in rows;
        }
      }
    }
  }

  /** Line 516: `weekday_map`, applied with pandas `map` (a missing key gives a missing name). */
  const WEEKDAY_MAP: map<int, string> := map[
    0 := "Monday", 1 := "Tuesday", 2 := "Wednesday", 3 := "Thursday",
    4 := "Friday", 5 := "Saturday", 6 := "Sunday"]

  function WeekdayName(weekday: int): (name: Option<string>)
    ensures name.Some? <==> 0 <= weekday <= 6
  {
    if weekday in WEEKDAY_MAP then Some(WEEKDAY_MAP[weekday]) else None
  }

  /** Different weekday numbers get different names. */
  lemma WeekdayNamesDistinct(a: int, b: int)
    requires 0 <= a <= 6 && 0 <= b <= 6 && a != b
    ensures WeekdayName(a) != WeekdayName(b)
  {
  }

  /** The weekday names agree with the pipeline's working-day flag: the weekend is Saturday and Sunday. */
  lemma WeekendIsNotWorkingDay(weekday: int)
    requires 0 <= weekday <= 6
    ensures DailyFeatures.IsWorkingDay(weekday) == 0 <==> WeekdayName(weekday) in {Some("Saturday"), Some("Sunday")}
  {
  }

  /** `RISK_LEVEL_COLORS`. */
  const RISK_LEVEL_COLORS: map<string, string> := map["Low" := "#28a745", "Medium" := "#ffc107", "High" := "#dc3545"]

  /** `RISK_LEVEL_COLORS.get(val, 'black')`. */
  function RiskLevelColor(val: string): (color: string)
    ensures ';' !in color
  {
    if val in RISK_LEVEL_COLORS then RISK_LEVEL_COLORS[val] else "black"
  }

  const STYLE_PREFIX := "background-color: "
  const STYLE_REST := " color: white; border-radius: 5px; padding: 2px 5px;"

  /**
   * Lines 409-411. The style sets exactly the background colour of the
   * level, black for any other value.
   */
  function ColorRiskLevel(val: string): (style: string)
    ensures StyleBackground(style) == RiskLevelColor(val)
  {
    var color := RiskLevelColor(val);
    ValueAfterPrefix(STYLE_PREFIX, color, ';', STYLE_REST);
    STYLE_PREFIX + color + [';'] + STYLE_REST
  }

  /** The background colour a cell style sets: the text after the prefix up to the first `;`. */
  function StyleBackground(style: string): string
  {
    if STYLE_PREFIX <= style then
      var rest := style[|STYLE_PREFIX|..];
      rest[..IndexOf(rest, ';')]
    else ""
  }

  /** In `p + x + [c] + rest` with no `c` in `x`, the text after `p` up to the first `c` is `x`. */
  lemma ValueAfterPrefix(p: string, x: string, c: char, rest: string)
    requires c !in x
    ensures var s := p + x + [c] + rest;
      p <= s && s[|p|..][..IndexOf(s[|p|..], c)] == x
  {
    var s := p + x + [c] + rest;
    assert s[|p|..] == x + [c] + rest;
    IndexOfAfter(x, c, rest);
    assert (x + [c] + rest)[..|x|] == x;
  }

  /** Two cells get the same style iff their values map to the same colour: the three levels are told apart. */
  lemma ColorRiskLevelDistinguishesLevels(a: string, b: string)
    ensures ColorRiskLevel(a) == ColorRiskLevel(b) <==> RiskLevelColor(a) == RiskLevelColor(b)
    ensures a in RISK_LEVEL_ORDER && b in RISK_LEVEL_ORDER && a != b ==> ColorRiskLevel(a) != ColorRiskLevel(b)
  {
  }
}
