/** The data-access layer: the two tables `activity` and `daily_report`,
    the filtered queries on them, the newest-activity lookup and the
    read-then-write upsert of a user's report for the current day. */
module ScyllaDbClient {
  import opened Common
  import opened TimeOfDay
  import opened Timestamps
  import opened Cql

  /** (username, creation_date): the partition key and the clustering key
      of both tables, so a map keyed by it holds at most one row per key
      and a later write with the same key overwrites the earlier one. */
  type Key = (string, int)

  datatype ActivityRow = ActivityRow(id: string, status: string)

  datatype ReportRow = ReportRow(id: string, mostVisitedHour: Option<Time>, total: Option<Time>)

  const ActivitySchema: Schema :=
    map["id" := TextColumn, "username" := TextColumn, "creation_date" := TimestampColumn, "status" := TextColumn]

  const ReportSchema: Schema :=
    map["id" := TextColumn, "username" := TextColumn, "creation_date" := TimestampColumn,
        "most_visited_hour" := TimeColumn, "total" := TimeColumn]

  function ActivityCells(k: Key, r: ActivityRow): Row {
    map["id" := TextCell(r.id), "username" := TextCell(k.0), "creation_date" := TimestampCell(k.1),
        "status" := TextCell(r.status)]
  }

  function TimeCellOf(v: Option<Time>): Cell {
    if v.Some? then TimeCell(v.value) else NullCell
  }

  function ReportCells(k: Key, r: ReportRow): Row {
    map["id" := TextCell(r.id), "username" := TextCell(k.0), "creation_date" := TimestampCell(k.1),
        "most_visited_hour" := TimeCellOf(r.mostVisitedHour), "total" := TimeCellOf(r.total)]
  }

  // ---------------------------------------------------------------------
  // Documents: the rows as the client hands them back.

  datatype ActivityDoc = ActivityDoc(id: string, username: string, creationDate: string, status: string)

  datatype ReportDoc =
    ReportDoc(id: string, username: string, creationDate: string, mostVisitedHour: Option<string>, total: Option<string>)

  function ShapeActivity(k: Key, r: ActivityRow): ActivityDoc {
    ActivityDoc(r.id, k.0, IsoFormat(k.1), r.status)
  }

  function ShapeReport(k: Key, r: ReportRow): ReportDoc {
    ReportDoc(r.id, k.0, IsoFormat(k.1), ShowTime(r.mostVisitedHour), ShowTime(r.total))
  }

  /** A stored report row comes back with both times as "HH:MM:SS" text
      without fractional seconds, and with an absent time as None. */
  lemma ShapeReportTimes(k: Key, r: ReportRow)
    requires r.mostVisitedHour.Some? ==> TimeOfDay.Valid(r.mostVisitedHour.value)
    requires r.total.Some? ==> TimeOfDay.Valid(r.total.value)
    ensures var d := ShapeReport(k, r);
      && (r.mostVisitedHour.None? ==> d.mostVisitedHour.None?)
      && (r.mostVisitedHour.Some? ==> d.mostVisitedHour == Some(Clock(r.mostVisitedHour.value)))
      && (r.total.None? ==> d.total.None?)
      && (r.total.Some? ==> d.total == Some(Clock(r.total.value)))
  {
    ShowDropsFraction(r.mostVisitedHour);
    ShowDropsFraction(r.total);
  }

  /** The document of a row written by create_activity carries the row's
      fields and a creation date of exactly "YYYY-MM-DDTHH:MM:SS" whose
      clock part is the clock of the instant of the call. */
  lemma CreatedActivityDoc(username: string, now: int, id: string, status: string)
    requires 1 <= CivilFromDays(WholeSecond(now) / MsPerDay).0 <= 9999
    ensures var d := ShapeActivity((username, WholeSecond(now)), ActivityRow(id, status));
      && d.id == id && d.username == username && d.status == status
      && |d.creationDate| == 19 && d.creationDate[11..19] == Clock(DayTime(now))
  {
    IsoShape(WholeSecond(now));
    WholeSecondClock(now);
  }

  // ---------------------------------------------------------------------
  // Filters and the conditions they become.

  /** The optional filters of get_activity; None or "" means "no filter". */
  datatype ActivityFilter =
    ActivityFilter(username: Option<string>, status: Option<string>, start: Option<string>, end: Option<string>)

  /** The optional filters of get_daily_report. */
  datatype ReportFilter = ReportFilter(
    username: Option<string>, mostVisitedHour: Option<string>, total: Option<string>,
    start: Option<string>, end: Option<string>)

  function EqualsIfGiven(column: string, v: Option<string>): seq<Clause> {
    if Truthy(v) then [Equals(column, v.value)] else []
  }

  function DateClauses(start: Option<string>, end: Option<string>): seq<Clause> {
    if Truthy(start) && Truthy(end) then [Between("creation_date", start.value, end.value)]
    else if Truthy(start) then [AtLeast("creation_date", start.value)]
    else if Truthy(end) then [AtMost("creation_date", end.value)]
    else []
  }

  /** The conditions of get_activity in their fixed order: username,
      status, then the date bound. */
  function ActivityClauses(f: ActivityFilter): seq<Clause> {
    EqualsIfGiven("username", f.username) + EqualsIfGiven("status", f.status) + DateClauses(f.start, f.end)
  }

  /** The conditions of get_daily_report: username, most_visited_hour,
      total, then the date bound. */
  function ReportClauses(f: ReportFilter): seq<Clause> {
    EqualsIfGiven("username", f.username) + EqualsIfGiven("most_visited_hour", f.mostVisitedHour) +
    EqualsIfGiven("total", f.total) + DateClauses(f.start, f.end)
  }

  /** The date filter as the caller means it: each given bound is
      inclusive, a missing bound is no constraint. */
  ghost predicate InDateRange(f: (Option<string>, Option<string>), t: int, lit: Literals) {
    && (Truthy(f.0) ==> lit.timestamp(f.0.value).Some? && lit.timestamp(f.0.value).value <= t)
    && (Truthy(f.1) ==> lit.timestamp(f.1.value).Some? && t <= lit.timestamp(f.1.value).value)
  }

  /** An activity row the caller asked for: every given filter matches. */
  ghost predicate ActivityWanted(f: ActivityFilter, k: Key, r: ActivityRow, lit: Literals) {
    && (Truthy(f.username) ==> k.0 == f.username.value)
    && (Truthy(f.status) ==> r.status == f.status.value)
    && InDateRange((f.start, f.end), k.1, lit)
  }

  /** A report row the caller asked for. */
  ghost predicate ReportWanted(f: ReportFilter, k: Key, r: ReportRow, lit: Literals) {
    && (Truthy(f.username) ==> k.0 == f.username.value)
    && (Truthy(f.mostVisitedHour) ==>
          lit.time(f.mostVisitedHour.value).Some? && r.mostVisitedHour == Some(lit.time(f.mostVisitedHour.value).value))
    && (Truthy(f.total) ==> lit.time(f.total.value).Some? && r.total == Some(lit.time(f.total.value).value))
    && InDateRange((f.start, f.end), k.1, lit)
  }

  lemma DateClausesMeaning(start: Option<string>, end: Option<string>, row: Row, schema: Schema, t: int, lit: Literals)
    requires "creation_date" in row && row["creation_date"] == TimestampCell(t)
    requires "creation_date" in schema && schema["creation_date"] == TimestampColumn
    ensures HoldsAll(DateClauses(start, end), row, schema, lit) <==> InDateRange((start, end), t, lit)
  {
  }

  lemma EqualsIfGivenText(column: string, v: Option<string>, row: Row, schema: Schema, lit: Literals)
    requires column in row && row[column].TextCell?
    requires column in schema && schema[column] == TextColumn
    ensures HoldsAll(EqualsIfGiven(column, v), row, schema, lit) <==> (Truthy(v) ==> row[column].text == v.value)
  {
  }

  lemma EqualsIfGivenTime(column: string, v: Option<string>, stored: Option<Time>, row: Row, schema: Schema, lit: Literals)
    requires column in row && row[column] == TimeCellOf(stored)
    requires column in schema && schema[column] == TimeColumn
    ensures HoldsAll(EqualsIfGiven(column, v), row, schema, lit) <==>
              (Truthy(v) ==> lit.time(v.value).Some? && stored == Some(lit.time(v.value).value))
  {
  }

  /** The conditions get_activity builds select exactly the rows the
      caller asked for. */
  lemma ActivityClausesMeaning(f: ActivityFilter, k: Key, r: ActivityRow, lit: Literals)
    ensures HoldsAll(ActivityClauses(f), ActivityCells(k, r), ActivitySchema, lit) <==> ActivityWanted(f, k, r, lit)
  {
    var row := ActivityCells(k, r);
    var a, b, c := EqualsIfGiven("username", f.username), EqualsIfGiven("status", f.status), DateClauses(f.start, f.end);
    HoldsAllConcat(a + b, c, row, ActivitySchema, lit);
    HoldsAllConcat(a, b, row, ActivitySchema, lit);
    EqualsIfGivenText("username", f.username, row, ActivitySchema, lit);
    EqualsIfGivenText("status", f.status, row, ActivitySchema, lit);
    DateClausesMeaning(f.start, f.end, row, ActivitySchema, k.1, lit);
  }

  /** The conditions get_daily_report builds select exactly the rows the
      caller asked for. */
  lemma ReportClausesMeaning(f: ReportFilter, k: Key, r: ReportRow, lit: Literals)
    ensures HoldsAll(ReportClauses(f), ReportCells(k, r), ReportSchema, lit) <==> ReportWanted(f, k, r, lit)
  {
    var row := ReportCells(k, r);
    var a, b, c, d := EqualsIfGiven("username", f.username), EqualsIfGiven("most_visited_hour", f.mostVisitedHour),
                      EqualsIfGiven("total", f.total), DateClauses(f.start, f.end);
    HoldsAllConcat(a + b + c, d, row, ReportSchema, lit);
    HoldsAllConcat(a + b, c, row, ReportSchema, lit);
    HoldsAllConcat(a, b, row, ReportSchema, lit);
    EqualsIfGivenText("username", f.username, row, ReportSchema, lit);
    EqualsIfGivenTime("most_visited_hour", f.mostVisitedHour, r.mostVisitedHour, row, ReportSchema, lit);
    EqualsIfGivenTime("total", f.total, r.total, row, ReportSchema, lit);
    DateClausesMeaning(f.start, f.end, row, ReportSchema, k.1, lit);
  }

  // ---------------------------------------------------------------------
  // Building the statement text, as get_activity and get_daily_report do:
  // conditions and parameters are appended one filter at a time.

  /** No filter given: the one statement without a WHERE clause. */
  function NoActivityFilter(f: ActivityFilter): bool {
    !Truthy(f.username) && !Truthy(f.status) && !Truthy(f.start) && !Truthy(f.end)
  }

  function NoReportFilter(f: ReportFilter): bool {
    !Truthy(f.username) && !Truthy(f.mostVisitedHour) && !Truthy(f.total) && !Truthy(f.start) && !Truthy(f.end)
  }

  lemma TextsSnoc(cs: seq<Clause>, c: Clause)
    ensures Texts(cs + [c]) == Texts(cs) + [ClauseText(c)]
    ensures Params(cs + [c]) == Params(cs) + ClauseParams(c)
  {
    assert (cs + [c])[..|cs|] == cs;
  }

  /** Appends "column = %s" and its value when the value is given. */
  method AppendEquals(conditions: seq<string>, parameters: seq<string>, ghost cs: seq<Clause>,
                      column: string, v: Option<string>)
    returns (conditions': seq<string>, parameters': seq<string>)
    requires conditions == Texts(cs) && parameters == Params(cs)
    ensures conditions' == Texts(cs + EqualsIfGiven(column, v)) && parameters' == Params(cs + EqualsIfGiven(column, v))
  {
    conditions', parameters' := conditions, parameters;
    if Truthy(v) {
      var c := Equals(column, v.value);
      conditions' := conditions' + [ClauseText(c)];
      parameters' := parameters' + ClauseParams(c);
      TextsSnoc(cs, c);
    } else {
      assert cs + EqualsIfGiven(column, v) == cs;
    }
  }

  /** Appends the date condition: an inclusive range when both dates are
      given, otherwise the one-sided bound of the date that is. */
  method AppendDateCondition(conditions: seq<string>, parameters: seq<string>, ghost cs: seq<Clause>,
                             start: Option<string>, end: Option<string>)
    returns (conditions': seq<string>, parameters': seq<string>)
    requires conditions == Texts(cs) && parameters == Params(cs)
    ensures conditions' == Texts(cs + DateClauses(start, end)) && parameters' == Params(cs + DateClauses(start, end))
  {
    conditions', parameters' := conditions, parameters;
    var c: Clause;
    if Truthy(start) && Truthy(end) {
      c := Between("creation_date", start.value, end.value);
    } else if Truthy(start) {
      c := AtLeast("creation_date", start.value);
    } else if Truthy(end) {
      c := AtMost("creation_date", end.value);
    } else {
      assert cs + DateClauses(start, end) == cs;
      return;
    }
    conditions' := conditions' + [ClauseText(c)];
    parameters' := parameters' + ClauseParams(c);
    TextsSnoc(cs, c);
  }

  /** `query += " WHERE " + " AND ".join(conditions)` when there are
      conditions, then `query += " ALLOW FILTERING"`. */
  method FinishQuery(query: string, ghost table: string, conditions: seq<string>, ghost cs: seq<Clause>)
    returns (query': string)
    requires query == "SELECT * FROM " + table
    requires conditions == Texts(cs)
    ensures query' == Render(table, cs)
  {
    query' := query;
    if conditions != [] {
      query' := query' + " WHERE " + Join(conditions, " AND ");
    }
    query' := query' + " ALLOW FILTERING";
  }

  const ActivityTable := "activity"
  const ReportTable := "daily_report"

  /** The statement and parameters of get_activity. */
  method BuildActivityQuery(f: ActivityFilter) returns (query: string, parameters: seq<string>)
    ensures query == Render(ActivityTable, ActivityClauses(f)) && parameters == Params(ActivityClauses(f))
  {
    query := "SELECT * FROM " + ActivityTable;
    var conditions: seq<string> := [];
    parameters := [];
    ghost var cs: seq<Clause> := [];
    conditions, parameters := AppendEquals(conditions, parameters, cs, "username", f.username);
    cs := cs + EqualsIfGiven("username", f.username);
    conditions, parameters := AppendEquals(conditions, parameters, cs, "status", f.status);
    cs := cs + EqualsIfGiven("status", f.status);
    conditions, parameters := AppendDateCondition(conditions, parameters, cs, f.start, f.end);
    cs := cs + DateClauses(f.start, f.end);
    assert cs == ActivityClauses(f);
    query := FinishQuery(query, ActivityTable, conditions, cs);
  }

  lemma RenderUnfiltered(table: string)
    ensures Render(table, []) == "SELECT * FROM " + table + " ALLOW FILTERING"
  {
    assert "SELECT * FROM " + table + "" == "SELECT * FROM " + table;
  }

  /** With no filter, get_activity sends exactly
      "SELECT * FROM activity ALLOW FILTERING" with no parameters. */
  lemma UnfilteredActivityQuery(f: ActivityFilter)
    requires NoActivityFilter(f)
    ensures Render(ActivityTable, ActivityClauses(f)) == "SELECT * FROM activity ALLOW FILTERING"
    ensures Params(ActivityClauses(f)) == []
  {
    assert ActivityClauses(f) == [];
    RenderUnfiltered(ActivityTable);
  }

  /** With no filter, get_daily_report sends exactly
      "SELECT * FROM daily_report ALLOW FILTERING" with no parameters. */
  lemma UnfilteredReportQuery(f: ReportFilter)
    requires NoReportFilter(f)
    ensures Render(ReportTable, ReportClauses(f)) == "SELECT * FROM daily_report ALLOW FILTERING"
    ensures Params(ReportClauses(f)) == []
  {
    assert ReportClauses(f) == [];
    RenderUnfiltered(ReportTable);
  }

  /** Every statement get_activity sends has as many placeholders as
      parameters. */
  lemma ActivityQueryPlaceholders(f: ActivityFilter)
    ensures Placeholders(Render(ActivityTable, ActivityClauses(f))) == |Params(ActivityClauses(f))|
  {
    ActivityColumnsPlain(f);
    RenderPlaceholders(ActivityTable, ActivityClauses(f));
  }

  /** Every statement get_daily_report sends has as many placeholders as
      parameters. */
  lemma ReportQueryPlaceholders(f: ReportFilter)
    ensures Placeholders(Render(ReportTable, ReportClauses(f))) == |Params(ReportClauses(f))|
  {
    ReportColumnsPlain(f);
    RenderPlaceholders(ReportTable, ReportClauses(f));
  }

  /** The value of a filter that is given, as a parameter list. */
  function Given(v: Option<string>): seq<string> {
    if Truthy(v) then [v.value] else []
  }

  /** The condition text of an equality filter that is given. */
  function GivenText(column: string, v: Option<string>): seq<string> {
    if Truthy(v) then [column + " = %s"] else []
  }

  lemma EqualsIfGivenParts(column: string, v: Option<string>)
    ensures Texts(EqualsIfGiven(column, v)) == GivenText(column, v)
    ensures Params(EqualsIfGiven(column, v)) == Given(v)
  {
    if Truthy(v) {
      assert Texts([Equals(column, v.value)]) == [column + " = " + Mark];
      assert column + " = " + Mark == column + " = %s";
    }
  }

  /** Both dates: the one inclusive range condition with the start and
      then the end as parameters. */
  lemma DateRangeCondition(start: Option<string>, end: Option<string>)
    requires Truthy(start) && Truthy(end)
    ensures Texts(DateClauses(start, end)) == ["creation_date >= %s AND creation_date <= %s"]
    ensures Params(DateClauses(start, end)) == [start.value, end.value]
  {
    var c := Between("creation_date", start.value, end.value);
    assert Texts([c]) == [ClauseText(c)];
    assert ClauseText(c) == "creation_date >= %s AND creation_date <= %s";
  }

  /** One date: a one-sided bound on that date; no date: no condition. */
  lemma DateBoundCondition(start: Option<string>, end: Option<string>)
    requires !(Truthy(start) && Truthy(end))
    ensures Truthy(start) ==>
              Texts(DateClauses(start, end)) == ["creation_date >= %s"] && Params(DateClauses(start, end)) == [start.value]
    ensures Truthy(end) ==>
              Texts(DateClauses(start, end)) == ["creation_date <= %s"] && Params(DateClauses(start, end)) == [end.value]
    ensures !Truthy(start) && !Truthy(end) ==> DateClauses(start, end) == []
  {
    if Truthy(start) {
      var c := AtLeast("creation_date", start.value);
      assert Texts([c]) == [ClauseText(c)];
      assert ClauseText(c) == "creation_date >= %s";
    } else if Truthy(end) {
      var c := AtMost("creation_date", end.value);
      assert Texts([c]) == [ClauseText(c)];
      assert ClauseText(c) == "creation_date <= %s";
    }
  }

  /** get_activity's conditions and parameters come in the same fixed
      order: username, status, then the date condition. */
  lemma ActivityQueryOrder(f: ActivityFilter)
    ensures Texts(ActivityClauses(f)) ==
            GivenText("username", f.username) + GivenText("status", f.status) + Texts(DateClauses(f.start, f.end))
    ensures Params(ActivityClauses(f)) == Given(f.username) + Given(f.status) + Params(DateClauses(f.start, f.end))
  {
    var a, b, c := EqualsIfGiven("username", f.username), EqualsIfGiven("status", f.status), DateClauses(f.start, f.end);
    TextsConcat(a + b, c);
    TextsConcat(a, b);
    EqualsIfGivenParts("username", f.username);
    EqualsIfGivenParts("status", f.status);
  }

  /** get_daily_report's conditions and parameters come in the fixed
      order: username, most_visited_hour, total, then the date condition. */
  lemma ReportQueryOrder(f: ReportFilter)
    ensures Texts(ReportClauses(f)) ==
            GivenText("username", f.username) + GivenText("most_visited_hour", f.mostVisitedHour) +
            GivenText("total", f.total) + Texts(DateClauses(f.start, f.end))
    ensures Params(ReportClauses(f)) ==
            Given(f.username) + Given(f.mostVisitedHour) + Given(f.total) + Params(DateClauses(f.start, f.end))
  {
    var a, b, c, d := EqualsIfGiven("username", f.username), EqualsIfGiven("most_visited_hour", f.mostVisitedHour),
                      EqualsIfGiven("total", f.total), DateClauses(f.start, f.end);
    TextsConcat(a + b + c, d);
    TextsConcat(a + b, c);
    TextsConcat(a, b);
    EqualsIfGivenParts("username", f.username);
    EqualsIfGivenParts("most_visited_hour", f.mostVisitedHour);
    EqualsIfGivenParts("total", f.total);
  }

  lemma ActivityColumnsPlain(f: ActivityFilter)
    ensures Plain("activity") && PlainColumns(ActivityClauses(f))
  {
    var a, b, c := EqualsIfGiven("username", f.username), EqualsIfGiven("status", f.status), DateClauses(f.start, f.end);
    EqualsIfGivenPlain("username", f.username);
    EqualsIfGivenPlain("status", f.status);
    DateClausesPlain(f.start, f.end);
    PlainColumnsConcat(a, b);
    PlainColumnsConcat(a + b, c);
  }

  lemma ReportColumnsPlain(f: ReportFilter)
    ensures Plain("daily_report") && PlainColumns(ReportClauses(f))
  {
    var a, b, c, d := EqualsIfGiven("username", f.username), EqualsIfGiven("most_visited_hour", f.mostVisitedHour),
                      EqualsIfGiven("total", f.total), DateClauses(f.start, f.end);
    EqualsIfGivenPlain("username", f.username);
    EqualsIfGivenPlain("most_visited_hour", f.mostVisitedHour);
    EqualsIfGivenPlain("total", f.total);
    DateClausesPlain(f.start, f.end);
    PlainColumnsConcat(a, b);
    PlainColumnsConcat(a + b, c);
    PlainColumnsConcat(a + b + c, d);
  }

  lemma EqualsIfGivenPlain(column: string, v: Option<string>)
    requires Plain(column)
    ensures PlainColumns(EqualsIfGiven(column, v))
  {
  }

  lemma DateClausesPlain(start: Option<string>, end: Option<string>)
    ensures PlainColumns(DateClauses(start, end))
  {
    assert Plain("creation_date");
  }

  lemma PlainColumnsConcat(a: seq<Clause>, b: seq<Clause>)
    requires PlainColumns(a) && PlainColumns(b)
    ensures PlainColumns(a + b)
  {
    forall i | 0 <= i < |a + b| ensures Plain((a + b)[i].column) {
      if i >= |a| {
        assert (a + b)[i] == b[i - |a|];
      }
    }
  }

  /** The statement and parameters of get_daily_report. */
  method BuildReportQuery(f: ReportFilter) returns (query: string, parameters: seq<string>)
    ensures query == Render(ReportTable, ReportClauses(f)) && parameters == Params(ReportClauses(f))
  {
    query := "SELECT * FROM " + ReportTable;
    var conditions: seq<string> := [];
    parameters := [];
    ghost var cs: seq<Clause> := [];
    conditions, parameters := AppendEquals(conditions, parameters, cs, "username", f.username);
    cs := cs + EqualsIfGiven("username", f.username);
    conditions, parameters := AppendEquals(conditions, parameters, cs, "most_visited_hour", f.mostVisitedHour);
    cs := cs + EqualsIfGiven("most_visited_hour", f.mostVisitedHour);
    conditions, parameters := AppendEquals(conditions, parameters, cs, "total", f.total);
    cs := cs + EqualsIfGiven("total", f.total);
    conditions, parameters := AppendDateCondition(conditions, parameters, cs, f.start, f.end);
    cs := cs + DateClauses(f.start, f.end);
    assert cs == ReportClauses(f);
    query := FinishQuery(query, ReportTable, conditions, cs);
  }

  // ---------------------------------------------------------------------
  // Running a filtered statement against a table.

  /** The keys of the rows of `table` that satisfy every condition. */
  ghost function Hits<R>(table: map<Key, R>, cells: (Key, R) -> Row, cs: seq<Clause>, schema: Schema, lit: Literals): set<Key> {
    set k | k in table && HoldsAll(cs, cells(k, table[k]), schema, lit)
  }

  ghost predicate Distinct(keys: seq<Key>) {
    forall i, j :: 0 <= i < j < |keys| ==> keys[i] != keys[j]
  }

  /** `docs` lists the rows at `keys`, shaped, one document per row. */
  ghost predicate ShapedAt<R, D>(docs: seq<D>, keys: seq<Key>, table: map<Key, R>, shape: (Key, R) -> D) {
    |docs| == |keys| && forall i :: 0 <= i < |keys| ==> keys[i] in table && docs[i] == shape(keys[i], table[keys[i]])
  }

  /** The store's scan: every row that satisfies the conditions, once
      each, in an order the model leaves open, shaped into a document. */
  method Scan<R, D>(table: map<Key, R>, cells: (Key, R) -> Row, shape: (Key, R) -> D,
                    cs: seq<Clause>, schema: Schema, lit: Literals)
    returns (docs: seq<D>, ghost keys: seq<Key>)
    ensures Distinct(keys) && ShapedAt(docs, keys, table, shape)
    ensures forall k :: k in keys <==> k in Hits(table, cells, cs, schema, lit)
    ensures forall d :: d in docs ==> exists k :: k in Hits(table, cells, cs, schema, lit) && k in table && d == shape(k, table[k])
    ensures forall k :: k in Hits(table, cells, cs, schema, lit) ==> k in table && shape(k, table[k]) in docs
  {
    docs, keys := [], [];
    var remaining := table.Keys;
    while remaining != {}
      invariant remaining <= table.Keys
      invariant Distinct(keys) && ShapedAt(docs, keys, table, shape)
      invariant forall k :: k in keys <==> k in table && k !in remaining && HoldsAll(cs, cells(k, table[k]), schema, lit)
      decreases remaining
    {
      var k :| k in remaining;
      if HoldsAll(cs, cells(k, table[k]), schema, lit) {
        docs := docs + [shape(k, table[k])];
        keys := keys + [k];
      }
      remaining := remaining - {k};
    }
    forall d | d in docs
      ensures exists k :: k in Hits(table, cells, cs, schema, lit) && k in table && d == shape(k, table[k])
    {
      var i :| 0 <= i < |docs| && docs[i] == d;
      assert keys[i] in Hits(table, cells, cs, schema, lit);
    }
    forall k | k in Hits(table, cells, cs, schema, lit)
      ensures k in table && shape(k, table[k]) in docs
    {
      var i :| 0 <= i < |keys| && keys[i] == k;
      assert docs[i] == shape(k, table[k]);
    }
  }

  /** `RuntimeError(f"Ошибка выполнения запроса: {str(e)}")`; the store's
      own error text is represented by the literal it could not read. */
  function QueryFailed(detail: string): string {
    "Ошибка выполнения запроса: " + detail
  }

  /** The rows the statement selects are exactly the wanted ones; with
      no filter, all of them. */
  lemma ActivityHitsMeaning(table: map<Key, ActivityRow>, f: ActivityFilter, lit: Literals)
    ensures forall k :: k in Hits(table, ActivityCells, ActivityClauses(f), ActivitySchema, lit) <==> k in table && ActivityWanted(f, k, table[k], lit)
    ensures NoActivityFilter(f) ==> forall k :: k in Hits(table, ActivityCells, ActivityClauses(f), ActivitySchema, lit) <==> k in table
  {
    forall k | k in table
      ensures HoldsAll(ActivityClauses(f), ActivityCells(k, table[k]), ActivitySchema, lit) <==> ActivityWanted(f, k, table[k], lit)
    {
      ActivityClausesMeaning(f, k, table[k], lit);
    }
  }

  /** What get_activity returns on success: the wanted rows, each once. */
  ghost predicate ActivityAnswer(docs: seq<ActivityDoc>, keys: seq<Key>, table: map<Key, ActivityRow>,
                                 f: ActivityFilter, lit: Literals) {
    && Distinct(keys) && ShapedAt(docs, keys, table, ShapeActivity)
    && forall k :: k in keys <==> k in table && ActivityWanted(f, k, table[k], lit)
  }

  /** The rows the statement selects are exactly the wanted ones; with
      no filter, all of them. */
  lemma ReportHitsMeaning(table: map<Key, ReportRow>, f: ReportFilter, lit: Literals)
    ensures forall k :: k in Hits(table, ReportCells, ReportClauses(f), ReportSchema, lit) <==> k in table && ReportWanted(f, k, table[k], lit)
    ensures NoReportFilter(f) ==> forall k :: k in Hits(table, ReportCells, ReportClauses(f), ReportSchema, lit) <==> k in table
  {
    forall k | k in table
      ensures HoldsAll(ReportClauses(f), ReportCells(k, table[k]), ReportSchema, lit) <==> ReportWanted(f, k, table[k], lit)
    {
      ReportClausesMeaning(f, k, table[k], lit);
    }
  }

  /** What get_daily_report returns on success. */
  ghost predicate ReportAnswer(docs: seq<ReportDoc>, keys: seq<Key>, table: map<Key, ReportRow>,
                               f: ReportFilter, lit: Literals) {
    && Distinct(keys) && ShapedAt(docs, keys, table, ShapeReport)
    && forall k :: k in keys <==> k in table && ReportWanted(f, k, table[k], lit)
  }

  // ---------------------------------------------------------------------
  // The newest row of a user, and the rows of a user's day.

  /** `k` is the user's row with the greatest creation_date. */
  ghost predicate IsNewest<R>(table: map<Key, R>, username: string, k: Key) {
    k in table && k.0 == username && forall k' :: k' in table && k'.0 == username ==> k'.1 <= k.1
  }

  /** A user's rows have distinct creation dates, so the newest is unique. */
  lemma NewestUnique<R>(table: map<Key, R>, username: string, k: Key, k': Key)
    requires IsNewest(table, username, k) && IsNewest(table, username, k')
    ensures k == k'
  {
  }

  /** create_activity followed by get_last_activity: with no row of the
      user later than the new one, the new row is the user's newest, so the
      single document returned carries the status just written. */
  lemma CreatedIsNewest(table: map<Key, ActivityRow>, username: string, status: string, now: int, id: string)
    requires forall k :: k in table && k.0 == username ==> k.1 <= WholeSecond(now)
    ensures var after := table[(username, WholeSecond(now)) := ActivityRow(id, status)];
      && IsNewest(after, username, (username, WholeSecond(now)))
      && forall k :: IsNewest(after, username, k) ==>
           k == (username, WholeSecond(now)) && after[k] == ActivityRow(id, status)
  {
    var after := table[(username, WholeSecond(now)) := ActivityRow(id, status)];
    forall k | IsNewest(after, username, k)
      ensures k == (username, WholeSecond(now))
    {
      NewestUnique(after, username, k, (username, WholeSecond(now)));
    }
  }

  /** An existing row of the user later than the truncated `now` stays
      the newest: the row just created is not what get_last_activity
      returns. */
  lemma LaterRowWins(table: map<Key, ActivityRow>, username: string, status: string, now: int, id: string, later: Key)
    requires later in table && later.0 == username && WholeSecond(now) < later.1
    ensures var after := table[(username, WholeSecond(now)) := ActivityRow(id, status)];
      !IsNewest(after, username, (username, WholeSecond(now)))
  {
    var after := table[(username, WholeSecond(now)) := ActivityRow(id, status)];
    assert later in after;
  }

  /** The user's rows with creation_date in [start, end). */
  ghost function RangeKeys<R>(table: map<Key, R>, username: string, start: int, end: int): set<Key> {
    set k | k in table && k.0 == username && start <= k.1 < end
  }

  ghost function DayKeys<R>(table: map<Key, R>, username: string, start: int): set<Key> {
    RangeKeys(table, username, start, start + MsPerDay)
  }

  /** `k` is the user's earliest row in [start, end). */
  ghost predicate IsEarliest<R>(table: map<Key, R>, username: string, start: int, end: int, k: Key) {
    k in RangeKeys(table, username, start, end) && forall k' :: k' in RangeKeys(table, username, start, end) ==> k.1 <= k'.1
  }

  lemma {:induction false} SmallestExists(ks: set<Key>)
    requires ks != {}
    ensures exists k :: k in ks && forall k' :: k' in ks ==> k.1 <= k'.1
    decreases |ks|
  {
    var k :| k in ks;
    if ks != {k} {
      SmallestExists(ks - {k});
      var m :| m in ks - {k} && forall k' :: k' in ks - {k} ==> m.1 <= k'.1;
      if k.1 < m.1 {
        assert forall k' :: k' in ks ==> k.1 <= k'.1;
      } else {
        assert forall k' :: k' in ks ==> m.1 <= k'.1;
      }
    }
  }

  /** Rows of one user differ in creation_date, so there is only one
      earliest row. */
  lemma EarliestUnique<R>(table: map<Key, R>, username: string, start: int, end: int, k: Key, k': Key)
    requires IsEarliest(table, username, start, end, k) && IsEarliest(table, username, start, end, k')
    ensures k == k'
  {
  }

  /** The row that `rows[0]` of the day's select denotes: daily_report
      clusters in ascending creation_date, so it is the earliest. */
  ghost function Earliest(table: map<Key, ReportRow>, username: string, start: int): (k: Key)
    requires DayKeys(table, username, start) != {}
    ensures IsEarliest(table, username, start, start + MsPerDay, k)
  {
    SmallestExists(DayKeys(table, username, start));
    var k :| IsEarliest(table, username, start, start + MsPerDay, k);
    k
  }

  // ---------------------------------------------------------------------
  // The arguments of upsert_daily_report.

  /** A time argument: a string, a `datetime.time`, or any other value. */
  datatype TimeArg = TimeText(text: string) | TimeValue(time: ClockTime) | OtherValue

  const MostVisitedHourTypeError := "most_visited_hour должен быть строкой 'HH:MM:SS' или объектом datetime.time"
  const TotalTypeError := "total должен быть строкой 'HH:MM:SS' или объектом datetime.time"

  /** A string is parsed as "%H:%M:%S", a time is taken as it is, and any
      other value raises ValueError with `typeError`. */
  function ToTime(arg: TimeArg, typeError: string): (r: Result<Time>)
    ensures r.Ok? ==> TimeOfDay.Valid(r.value)
    ensures arg.TimeValue? ==> r == Ok(arg.time)
    ensures arg.OtherValue? ==> r == Err(typeError)
    ensures arg.TimeText? ==> r == ParseTime(arg.text)
  {
    match arg
    case TimeText(s) => ParseTime(s)
    case TimeValue(t) => Ok(t)
    case OtherValue => Err(typeError)
  }

  /** Both times, most_visited_hour checked first. */
  function ReportTimes(mostVisitedHour: TimeArg, total: TimeArg): (r: Result<(Time, Time)>)
    ensures r.Ok? <==> ToTime(mostVisitedHour, MostVisitedHourTypeError).Ok? && ToTime(total, TotalTypeError).Ok?
    ensures ToTime(mostVisitedHour, MostVisitedHourTypeError).Err? ==> r.error == ToTime(mostVisitedHour, MostVisitedHourTypeError).error
    ensures r.Ok? ==> TimeOfDay.Valid(r.value.0) && TimeOfDay.Valid(r.value.1)
    ensures mostVisitedHour.OtherValue? ==> r == Err(MostVisitedHourTypeError)
    ensures ToTime(mostVisitedHour, MostVisitedHourTypeError).Ok? && total.OtherValue? ==> r == Err(TotalTypeError)
    ensures ToTime(mostVisitedHour, MostVisitedHourTypeError).Ok? && ToTime(total, TotalTypeError).Err? ==>
              r == Err(ToTime(total, TotalTypeError).error)
    ensures r.Ok? ==> r.value == (ToTime(mostVisitedHour, MostVisitedHourTypeError).value, ToTime(total, TotalTypeError).value)
  {
    var a := ToTime(mostVisitedHour, MostVisitedHourTypeError);
    if a.Err? then Err(a.error)
    else
      var b := ToTime(total, TotalTypeError);
      if b.Err? then Err(b.error) else Ok((a.value, b.value))
  }

  /** Two canonical "HH:MM:SS" strings convert to the times they spell,
      and those times read back as the same strings. */
  lemma CanonicalReportTimes(m: string, t: string)
    requires TimeOfDay.Canonical(m) && TimeOfDay.Canonical(t)
    ensures var r := ReportTimes(TimeText(m), TimeText(t));
      && r == Ok((TimeOfDay.CanonicalTime(m), TimeOfDay.CanonicalTime(t)))
      && ShowTime(Some(r.value.0)) == Some(m) && ShowTime(Some(r.value.1)) == Some(t)
  {
    TimeOfDay.CanonicalParses(m);
    TimeOfDay.CanonicalParses(t);
    TimeOfDay.CanonicalRoundTrip(m);
    TimeOfDay.CanonicalRoundTrip(t);
  }

  /** The report table after an upsert for `username` on the day that
      begins at `start`: the day's earliest row gets the two times, or a
      new row is written at the start of the day. */
  ghost function Upserted(table: map<Key, ReportRow>, username: string, start: int, a: Time, b: Time, id: string): map<Key, ReportRow> {
    if DayKeys(table, username, start) != {} then
      var e := Earliest(table, username, start);
      table[e := table[e].(mostVisitedHour := Some(a), total := Some(b))]
    else
      table[(username, start) := ReportRow(id, Some(a), Some(b))]
  }

  /** Upsert when the day already has a row: only that row's two times
      change; its id and creation_date are kept, no row is added and every
      other row is untouched. */
  lemma UpsertUpdates(table: map<Key, ReportRow>, username: string, start: int, a: Time, b: Time, id: string)
    requires DayKeys(table, username, start) != {}
    ensures var after := Upserted(table, username, start, a, b, id);
            var e := Earliest(table, username, start);
      && e.0 == username && start <= e.1 < start + MsPerDay
      && after.Keys == table.Keys
      && after[e] == ReportRow(table[e].id, Some(a), Some(b))
      && forall k :: k in table && k != e ==> after[k] == table[k]
  {
  }

  /** Upsert when the day has no row: exactly one row is added, at the
      start of the day, with the given times and the fresh id. */
  lemma UpsertInserts(table: map<Key, ReportRow>, username: string, start: int, a: Time, b: Time, id: string)
    requires DayKeys(table, username, start) == {}
    ensures var after := Upserted(table, username, start, a, b, id);
      && (username, start) !in table
      && after.Keys == table.Keys + {(username, start)}
      && after[(username, start)] == ReportRow(id, Some(a), Some(b))
      && forall k :: k in table ==> after[k] == table[k]
  {
    assert (username, start) !in table by {
      assert (username, start) !in DayKeys(table, username, start);
    }
  }

  /** Writing one row changes the day's rows by at most that row. */
  lemma DayKeysAfterWrite<R>(table: map<Key, R>, k: Key, v: R, username: string, start: int)
    ensures DayKeys(table[k := v], username, start) ==
            DayKeys(table, username, start) + (if k.0 == username && start <= k.1 < start + MsPerDay then {k} else {})
  {
  }

  lemma OnlyMember(s: set<Key>, e: Key)
    requires |s| <= 1 && e in s
    ensures s == {e}
  {
    assert |s - {e}| == |s| - 1;
    assert s - {e} == {};
  }

  /** At most one row of the day before an upsert means exactly one after
      it, holding the upserted times. */
  lemma UpsertKeepsOneRow(table: map<Key, ReportRow>, username: string, start: int, a: Time, b: Time, id: string)
    requires |DayKeys(table, username, start)| <= 1
    ensures var after := Upserted(table, username, start, a, b, id);
      && |DayKeys(after, username, start)| == 1
      && forall k :: k in DayKeys(after, username, start) ==>
           after[k].mostVisitedHour == Some(a) && after[k].total == Some(b)
  {
    if DayKeys(table, username, start) != {} {
      var e := Earliest(table, username, start);
      OnlyMember(DayKeys(table, username, start), e);
      DayKeysAfterWrite(table, e, table[e].(mostVisitedHour := Some(a), total := Some(b)), username, start);
    } else {
      DayKeysAfterWrite(table, (username, start), ReportRow(id, Some(a), Some(b)), username, start);
    }
  }

  /** Two upserts on the same day leave one row for the user and day,
      holding the second call's times. */
  lemma UpsertTwice(table: map<Key, ReportRow>, username: string, start: int,
                    a1: Time, b1: Time, id1: string, a2: Time, b2: Time, id2: string)
    requires |DayKeys(table, username, start)| <= 1
    ensures var after := Upserted(Upserted(table, username, start, a1, b1, id1), username, start, a2, b2, id2);
      && |DayKeys(after, username, start)| == 1
      && forall k :: k in DayKeys(after, username, start) ==>
           after[k].mostVisitedHour == Some(a2) && after[k].total == Some(b2)
  {
    UpsertKeepsOneRow(table, username, start, a1, b1, id1);
    UpsertKeepsOneRow(Upserted(table, username, start, a1, b1, id1), username, start, a2, b2, id2);
  }

  /** The table invariant: for every user and every day at most one
      daily_report row. */
  ghost predicate OnePerDay(table: map<Key, ReportRow>) {
    forall u: string, d: int :: d % MsPerDay == 0 ==> |DayKeys(table, u, d)| <= 1
  }

  /** Two day starts whose days overlap are the same day start. */
  lemma SameDayStart(d: int, s: int)
    requires d % MsPerDay == 0 && s % MsPerDay == 0 && d <= s < d + MsPerDay
    ensures d == s
  {
    assert d == (d / MsPerDay) * MsPerDay && s == (s / MsPerDay) * MsPerDay;
  }

  /** An upsert for the current day keeps at most one row per user and day,
      for every user and every day. */
  lemma UpsertKeepsOnePerDay(table: map<Key, ReportRow>, username: string, now: int, a: Time, b: Time, id: string)
    requires OnePerDay(table)
    ensures OnePerDay(Upserted(table, username, DayStart(now), a, b, id))
  {
    var start := DayStart(now);
    var after := Upserted(table, username, start, a, b, id);
    forall u: string, d: int | d % MsPerDay == 0
      ensures |DayKeys(after, u, d)| <= 1
    {
      if DayKeys(table, username, start) != {} {
        var e := Earliest(table, username, start);
        DayKeysAfterWrite(table, e, table[e].(mostVisitedHour := Some(a), total := Some(b)), u, d);
        assert DayKeys(after, u, d) == DayKeys(table, u, d) by {
          if e.0 == u && d <= e.1 < d + MsPerDay {
            assert e in DayKeys(table, u, d);
          }
        }
      } else {
        var k := (username, start);
        DayKeysAfterWrite(table, k, ReportRow(id, Some(a), Some(b)), u, d);
        if k.0 == u && d <= k.1 < d + MsPerDay {
          SameDayStart(d, start);
          assert DayKeys(after, u, d) == {k};
        }
      }
    }
  }

  /** Upserts on a table that keeps the invariant meet the precondition
      of UpsertTwice: the invariant holds across any sequence of them. */
  lemma OnePerDayAllowsUpsertTwice(table: map<Key, ReportRow>, username: string, now: int,
                                   a1: Time, b1: Time, id1: string, a2: Time, b2: Time, id2: string)
    requires OnePerDay(table)
    ensures var start := DayStart(now);
      var after := Upserted(Upserted(table, username, start, a1, b1, id1), username, start, a2, b2, id2);
      && OnePerDay(after)
      && |DayKeys(after, username, start)| == 1
      && forall k :: k in DayKeys(after, username, start) ==>
           after[k].mostVisitedHour == Some(a2) && after[k].total == Some(b2)
  {
    var start := DayStart(now);
    assert |DayKeys(table, username, start)| <= 1;
    UpsertKeepsOnePerDay(table, username, now, a1, b1, id1);
    UpsertKeepsOnePerDay(Upserted(table, username, start, a1, b1, id1), username, now, a2, b2, id2);
    UpsertTwice(table, username, start, a1, b1, id1, a2, b2, id2);
  }

  /** Every stored time is a valid time of day. */
  ghost predicate TimesValid(table: map<Key, ReportRow>) {
    forall k :: k in table ==>
      (table[k].mostVisitedHour.Some? ==> TimeOfDay.Valid(table[k].mostVisitedHour.value)) &&
      (table[k].total.Some? ==> TimeOfDay.Valid(table[k].total.value))
  }

  /** Both times of a report document are canonical "HH:MM:SS" texts or
      absent. */
  predicate ShownTimesCanonical(d: ReportDoc) {
    && (d.mostVisitedHour.Some? ==> TimeOfDay.Canonical(d.mostVisitedHour.value))
    && (d.total.Some? ==> TimeOfDay.Canonical(d.total.value))
  }

  /** A row with valid times is shown with canonical time texts, which
      upsert_daily_report accepts back. */
  lemma ValidRowShowsCanonical(k: Key, r: ReportRow)
    requires r.mostVisitedHour.Some? ==> TimeOfDay.Valid(r.mostVisitedHour.value)
    requires r.total.Some? ==> TimeOfDay.Valid(r.total.value)
    ensures ShownTimesCanonical(ShapeReport(k, r))
  {
    ShapeReportTimes(k, r);
    if r.mostVisitedHour.Some? {
      TimeOfDay.ClockCanonical(r.mostVisitedHour.value);
    }
    if r.total.Some? {
      TimeOfDay.ClockCanonical(r.total.value);
    }
  }

  lemma UpsertKeepsTimesValid(table: map<Key, ReportRow>, username: string, start: int, a: Time, b: Time, id: string)
    requires TimesValid(table) && TimeOfDay.Valid(a) && TimeOfDay.Valid(b)
    ensures TimesValid(Upserted(table, username, start, a, b, id))
  {
  }

  /** Both table invariants survive an upsert for the current day. */
  lemma UpsertKeepsInvariants(table: map<Key, ReportRow>, username: string, now: int, a: Time, b: Time, id: string)
    requires TimeOfDay.Valid(a) && TimeOfDay.Valid(b)
    ensures var after := Upserted(table, username, DayStart(now), a, b, id);
      && (OnePerDay(table) ==> OnePerDay(after))
      && (TimesValid(table) ==> TimesValid(after))
  {
    if OnePerDay(table) {
      UpsertKeepsOnePerDay(table, username, now, a, b, id);
    }
    if TimesValid(table) {
      UpsertKeepsTimesValid(table, username, DayStart(now), a, b, id);
    }
  }

  // ---------------------------------------------------------------------
  // The client over the two tables.

  class Client {
    /** The activity table, clustered by descending creation_date. */
    var activity: map<Key, ActivityRow>
    /** The daily_report table, clustered by ascending creation_date. */
    var dailyReport: map<Key, ReportRow>
    /** How the store reads timestamp and time literals. */
    const literals: Literals

    /** A client over tables that already hold the given rows. */
    constructor (activity: map<Key, ActivityRow>, dailyReport: map<Key, ReportRow>, literals: Literals)
      ensures this.activity == activity && this.dailyReport == dailyReport && this.literals == literals
    {
      this.activity := activity;
      this.dailyReport := dailyReport;
      this.literals := literals;
    }

    /** create_activity: an INSERT at the current time truncated to the
        second; a row already at that key is overwritten. */
    method CreateActivity(username: string, status: string, now: int, id: string)
      modifies this
      ensures activity == old(activity)[(username, WholeSecond(now)) := ActivityRow(id, status)]
      ensures dailyReport == old(dailyReport)
    {
      activity := activity[(username, WholeSecond(now)) := ActivityRow(id, status)];
    }

    /** get_activity. */
    method GetActivity(f: ActivityFilter) returns (r: Result<seq<ActivityDoc>>, ghost keys: seq<Key>)
      ensures var bad := FirstBadLiteral(ActivityClauses(f), ActivitySchema, literals);
        && (bad.Some? ==> r == Err(QueryFailed(bad.value)))
        && (bad.None? ==> r.Ok?)
      ensures r.Ok? ==> forall d :: d in r.value ==>
                exists k :: k in activity && ActivityWanted(f, k, activity[k], literals) && d == ShapeActivity(k, activity[k])
      ensures r.Ok? ==> forall k :: k in activity && ActivityWanted(f, k, activity[k], literals) ==> ShapeActivity(k, activity[k]) in r.value
      ensures r.Ok? ==> ActivityAnswer(r.value, keys, activity, f, literals)
      ensures NoActivityFilter(f) ==> r.Ok? && forall k :: k in keys <==> k in activity
    {
      var query, parameters := BuildActivityQuery(f);
      var cs := ActivityClauses(f);
      var bad := FirstBadLiteral(cs, ActivitySchema, literals);
      if bad.Some? {
        return Err(QueryFailed(bad.value)), [];
      }
      var docs;
      docs, keys := Scan(activity, ActivityCells, ShapeActivity, cs, ActivitySchema, literals);
      ActivityHitsMeaning(activity, f, literals);
      r := Ok(docs);
    }

    /** get_daily_report. */
    method GetDailyReport(f: ReportFilter) returns (r: Result<seq<ReportDoc>>, ghost keys: seq<Key>)
      ensures var bad := FirstBadLiteral(ReportClauses(f), ReportSchema, literals);
        && (bad.Some? ==> r == Err(QueryFailed(bad.value)))
        && (bad.None? ==> r.Ok?)
      ensures r.Ok? ==> forall d :: d in r.value ==>
                exists k :: k in dailyReport && ReportWanted(f, k, dailyReport[k], literals) && d == ShapeReport(k, dailyReport[k])
      ensures r.Ok? ==> forall k :: k in dailyReport && ReportWanted(f, k, dailyReport[k], literals) ==> ShapeReport(k, dailyReport[k]) in r.value
      ensures r.Ok? ==> ReportAnswer(r.value, keys, dailyReport, f, literals)
      ensures NoReportFilter(f) ==> r.Ok? && forall k :: k in keys <==> k in dailyReport
      ensures TimesValid(dailyReport) && r.Ok? ==> forall d :: d in r.value ==> ShownTimesCanonical(d)
    {
      var query, parameters := BuildReportQuery(f);
      var cs := ReportClauses(f);
      var bad := FirstBadLiteral(cs, ReportSchema, literals);
      if bad.Some? {
        return Err(QueryFailed(bad.value)), [];
      }
      var docs;
      docs, keys := Scan(dailyReport, ReportCells, ShapeReport, cs, ReportSchema, literals);
      ReportHitsMeaning(dailyReport, f, literals);
      if TimesValid(dailyReport) {
        forall d | d in docs
          ensures ShownTimesCanonical(d)
        {
          var k :| k in Hits(dailyReport, ReportCells, cs, ReportSchema, literals) && k in dailyReport && d == ShapeReport(k, dailyReport[k]);
          ValidRowShowsCanonical(k, dailyReport[k]);
        }
      }
      r := Ok(docs);
    }

    /** get_last_activity: the first row of the user's partition in
        descending creation_date order, LIMIT 1. */
    method GetLastActivity(username: string) returns (docs: seq<ActivityDoc>, ghost newest: Key)
      ensures |docs| <= 1
      ensures docs == [] <==> forall k :: k in activity ==> k.0 != username
      ensures docs != [] ==> IsNewest(activity, username, newest) && docs == [ShapeActivity(newest, activity[newest])]
    {
      var best: Option<Key> := None;
      var remaining := activity.Keys;
      while remaining != {}
        invariant remaining <= activity.Keys
        invariant best.None? <==> forall k :: k in activity && k !in remaining ==> k.0 != username
        invariant best.Some? ==>
                    && best.value in activity && best.value.0 == username
                    && forall k :: k in activity && k !in remaining && k.0 == username ==> k.1 <= best.value.1
        decreases remaining
      {
        var k :| k in remaining;
        if k.0 == username && (best.None? || best.value.1 < k.1) {
          best := Some(k);
        }
        remaining := remaining - {k};
      }
      if best.Some? {
        newest := best.value;
        docs := [ShapeActivity(best.value, activity[best.value])];
      } else {
        newest := (username, 0);
        docs := [];
      }
    }

    /** The day's select: the user's earliest row with creation_date in
        [start, end), if there is one. */
    method FirstRowOfDay(username: string, start: int, end: int) returns (first: Option<Key>)
      ensures first.None? <==> RangeKeys(dailyReport, username, start, end) == {}
      ensures first.Some? ==> IsEarliest(dailyReport, username, start, end, first.value)
    {
      first := None;
      var remaining := dailyReport.Keys;
      while remaining != {}
        invariant remaining <= dailyReport.Keys
        invariant first.None? <==> forall k :: k in RangeKeys(dailyReport, username, start, end) ==> k in remaining
        invariant first.Some? ==>
                    && first.value in RangeKeys(dailyReport, username, start, end)
                    && forall k :: k in RangeKeys(dailyReport, username, start, end) && k !in remaining ==> first.value.1 <= k.1
        decreases remaining
      {
        var k :| k in remaining;
        if k.0 == username && start <= k.1 < end && (first.None? || k.1 < first.value.1) {
          first := Some(k);
        }
        remaining := remaining - {k};
      }
    }

    /** The write half of upsert_daily_report, once both times are
        converted: the day's select, then the update of its first row or
        the insert at the day start. */
    method WriteDay(username: string, todayStart: int, a: Time, b: Time, freshId: string)
      modifies this
      ensures activity == old(activity)
      ensures dailyReport == Upserted(old(dailyReport), username, todayStart, a, b, freshId)
    {
      var todayEnd := todayStart + MsPerDay;
      var first := FirstRowOfDay(username, todayStart, todayEnd);
      ghost var before := dailyReport;
      if first.Some? {
        var e := first.value;
        assert e in DayKeys(before, username, todayStart);
        EarliestUnique(dailyReport, username, todayStart, todayEnd, e, Earliest(dailyReport, username, todayStart));
        dailyReport := dailyReport[e := dailyReport[e].(mostVisitedHour := Some(a), total := Some(b))];
      } else {
        assert DayKeys(before, username, todayStart) == {};
        dailyReport := dailyReport[(username, todayStart) := ReportRow(freshId, Some(a), Some(b))];
      }
    }

    /** upsert_daily_report: converts both times (a failure changes
        nothing), then updates the day's earliest row or inserts one at
        the start of the day. */
    method UpsertDailyReport(username: string, mostVisitedHour: TimeArg, total: TimeArg, now: int, freshId: string)
      returns (r: Result<()>)
      modifies this
      ensures activity == old(activity)
      ensures ReportTimes(mostVisitedHour, total).Err? ==>
                r == Err(ReportTimes(mostVisitedHour, total).error) && dailyReport == old(dailyReport)
      ensures ReportTimes(mostVisitedHour, total).Ok? ==>
                var (a, b) := ReportTimes(mostVisitedHour, total).value;
                r == Ok(()) && dailyReport == Upserted(old(dailyReport), username, DayStart(now), a, b, freshId)
      ensures OnePerDay(old(dailyReport)) ==> OnePerDay(dailyReport)
      ensures TimesValid(old(dailyReport)) ==> TimesValid(dailyReport)
    {
      var times := ReportTimes(mostVisitedHour, total);
      if times.Err? {
        return Err(times.error);
      }
      var (a, b) := times.value;
      ghost var before := dailyReport;
      WriteDay(username, DayStart(now), a, b, freshId);
      UpsertKeepsInvariants(before, username, now, a, b, freshId);
      r := Ok(());
    }
  }
}
