/** The administrators' view of the audit trail: the filtered, newest-first
    listing, single entries, and the summary that counts events by action
    and by table. Entries are sent with an extra `entity_type` column that
    repeats `table_name`. */
module Audit {
  import opened Base
  import opened Json
  import opened Http
  import opened Lists
  import opened Pagination

  const TableName := "table_name"
  const EntityType := "entity_type"
  const ActionColumn := "action"
  const ActorColumn := "actor_auth_user_id"
  const IdColumn := "id"

  const EntryNotFound := "Audit log entry not found"

  /** A row of `audit_logs`: `at` is its `created_at` instant, by which rows
      are ordered and ranged, and `columns` is the row as JSON. */
  datatype LogRow = LogRow(at: int, columns: map<string, Json>)

  function At(row: LogRow): int {
    row.at
  }

  /** The text in a column, if the column holds text. */
  function ColumnText(row: LogRow, column: string): Option<string> {
    if column in row.columns && row.columns[column].JStr? then Some(row.columns[column].s) else None
  }

  /** `{ ...log, entity_type: log.table_name }` as sent: a row without a
      `table_name` gets an `undefined` one, which JSON leaves out. */
  function WithEntityType(log: map<string, Json>): (r: map<string, Json>)
    ensures TableName in log ==> EntityType in r && r[EntityType] == log[TableName]
    ensures TableName !in log ==> EntityType !in r
    ensures forall k :: k != EntityType ==> (k in r <==> k in log)
    ensures forall k :: k != EntityType && k in r ==> r[k] == log[k]
  {
    if TableName in log then log[EntityType := log[TableName]] else log - {EntityType}
  }

  /** Adding `entity_type` twice is adding it once, and taking it away again
      gives back the row's other columns. */
  lemma EntityTypeIsIdempotent(log: map<string, Json>)
    ensures WithEntityType(WithEntityType(log)) == WithEntityType(log)
    ensures WithEntityType(log) - {EntityType} == log - {EntityType}
  {
  }

  /** The query string of the listing. `calendar` turns `start_date` into
      the start of that day (`T00:00:00`) and `end_date` into the start of
      its last second (`T23:59:59`). */
  datatype LogQuery = LogQuery(
    page: Option<string>,
    limit: Option<string>,
    action: Option<string>,
    tableName: Option<string>,
    entityType: Option<string>,
    userId: Option<string>,
    startDate: Option<string>,
    endDate: Option<string>)

  datatype Calendar = Calendar(dayStart: string -> int, dayEnd: string -> int)

  /** `table_name || entity_type`: the older parameter name is used only when
      the newer one is missing or empty. */
  function TableFilter(q: LogQuery): (t: Option<string>)
    ensures Present(q.tableName) ==> t == q.tableName
    ensures !Present(q.tableName) ==> t == q.entityType
  {
    OrElse(q.tableName, q.entityType)
  }

  /** The conditions the listing's query puts on a row; a filter whose
      parameter is missing or empty is not applied. */
  predicate Keep(row: LogRow, q: LogQuery, cal: Calendar) {
    && (Present(q.action) ==> SqlEq(ColumnText(row, ActionColumn), q.action))
    && (Present(TableFilter(q)) ==> SqlEq(ColumnText(row, TableName), TableFilter(q)))
    && (Present(q.userId) ==> SqlEq(ColumnText(row, ActorColumn), q.userId))
    && (Present(q.startDate) ==> row.at >= cal.dayStart(q.startDate.value))
    && (Present(q.endDate) ==> row.at <= cal.dayEnd(q.endDate.value))
  }

  /** Every row the query selects, newest first. */
  function Selected(logs: seq<LogRow>, q: LogQuery, cal: Calendar): (s: seq<LogRow>)
    ensures SortedDesc(s, At)
  {
    SortDesc(Filter(logs, (row: LogRow) => Keep(row, q, cal)), At)
  }

  /** The selection holds exactly the rows that pass every filter. */
  lemma SelectedAreKept(logs: seq<LogRow>, q: LogQuery, cal: Calendar)
    ensures forall row :: row in Selected(logs, q, cal) <==> row in logs && Keep(row, q, cal)
  {
    var kept := Filter(logs, (row: LogRow) => Keep(row, q, cal));
    FilterMembers(logs, (row: LogRow) => Keep(row, q, cal));
    var s := Selected(logs, q, cal);
    assert forall row :: row in s <==> row in multiset(kept);
  }

  /** The `pagination` object as JSON receives it; a missing number (an
      `undefined` field, or a `NaN` that becomes `null`) is `None`. */
  datatype SentMeta = SentMeta(
    page: Option<int>,
    limit: Option<int>,
    totalCount: Option<nat>,
    totalPages: Option<nat>,
    hasNext: bool,
    hasPrev: bool)

  function Sent(m: PageMeta): SentMeta {
    SentMeta(Some(m.page), Some(m.limit), Some(m.totalCount), Some(m.totalPages), m.hasNext, m.hasPrev)
  }

  /** The listing's call `buildPaginationMeta(count, page, limit)` as
      written. The helper takes one object and reads `page`, `limit` and
      `totalCount` from it; a number has none of these, so all three are
      `undefined`, the page count is `NaN`, and both comparisons are false.
      The other arguments are ignored. */
  function MetaAsWritten(count: nat, page: int, limit: int): (m: SentMeta)
    ensures m.page.None? && m.limit.None? && m.totalCount.None? && m.totalPages.None?
    ensures !m.hasNext && !m.hasPrev
  {
    SentMeta(None, None, None, None, false, false)
  }

  /** With 45 matching entries and pages of 20, the metadata as written
      reports no next page, where the helper called as intended reports
      three pages and a next one. */
  lemma MetaAsWrittenHidesNextPage()
    ensures !MetaAsWritten(45, 1, 20).hasNext
    ensures BuildPaginationMeta(1, 20, 45).totalPages == 3
    ensures BuildPaginationMeta(1, 20, 45).hasNext
    ensures Sent(BuildPaginationMeta(1, 20, 45)) != MetaAsWritten(45, 1, 20)
  {
    HasNextIffItemsRemain(1, 20, 45);
  }

  /** The requested page of rows, as sent. */
  function PageOf(s: seq<LogRow>, offset: nat, limit: nat): (rs: seq<map<string, Json>>)
    ensures |rs| <= limit
    ensures forall i :: 0 <= i < |rs| ==> offset + i < |s| && rs[i] == WithEntityType(s[offset + i].columns)
  {
    Map(Window(s, offset, limit), (row: LogRow) => WithEntityType(row.columns))
  }

  datatype LogPage = LogPage(data: seq<map<string, Json>>, pagination: SentMeta)

  /** `listAuditLogs`, with the metadata built as the helper intends:
      the requested page of selected rows, each with `entity_type`. */
  function ListAuditLogs(logs: seq<LogRow>, q: LogQuery, cal: Calendar): (r: LogPage)
    ensures var p := ParsePagination(q.page, q.limit);
      var s := Selected(logs, q, cal);
      && |r.data| <= p.limit
      && (forall i :: 0 <= i < |r.data| ==> p.offset + i < |s| && r.data[i] == WithEntityType(s[p.offset + i].columns))
    ensures var p := ParsePagination(q.page, q.limit);
      r.pagination == Sent(BuildPaginationMeta(p.page, p.limit, |Selected(logs, q, cal)|))
  {
    var p := ParsePagination(q.page, q.limit);
    var s := Selected(logs, q, cal);
    var data := PageOf(s, p.offset, p.limit as nat);
    LogPage(data, Sent(BuildPaginationMeta(p.page, p.limit, |s|)))
  }

  /** A listed entry passes every filter of the query, and the next page
      is announced exactly when selected entries remain after this one. */
  lemma ListedEntriesPassFilters(logs: seq<LogRow>, q: LogQuery, cal: Calendar)
    ensures var p := ParsePagination(q.page, q.limit);
      var s := Selected(logs, q, cal);
      && (forall i :: p.offset <= i < |s| && i < p.offset + p.limit ==> Keep(s[i], q, cal))
      && (ListAuditLogs(logs, q, cal).pagination.hasNext <==> p.page * p.limit < |s|)
  {
    var p := ParsePagination(q.page, q.limit);
    var s := Selected(logs, q, cal);
    SelectedAreKept(logs, q, cal);
    forall i | p.offset <= i < |s| && i < p.offset + p.limit ensures Keep(s[i], q, cal) {
      assert s[i] in s;
    }
    HasNextIffItemsRemain(p.page, p.limit, |s|);
  }

  /** `table_name` wins over `entity_type`: with both given, only rows of
      `table_name` are listed. */
  lemma TableNameTakesPrecedence(row: LogRow, q: LogQuery, cal: Calendar)
    requires Present(q.tableName) && Present(q.entityType) && q.tableName != q.entityType
    requires Keep(row, q, cal)
    ensures ColumnText(row, TableName) == q.tableName
    ensures ColumnText(row, TableName) != q.entityType
  {
  }

  /** `getAuditLog`: the row with that id, with `entity_type`; 404 when
      there is none. */
  function GetAuditLog(logs: map<Id, LogRow>, id: Id): (r: Reply<map<string, Json>>)
    ensures id !in logs <==> r == Fail(NotFound, EntryNotFound)
    ensures r.Ok? ==> r.status == OkStatus && r.value == WithEntityType(logs[id].columns)
  {
    if id !in logs then Fail(NotFound, EntryNotFound)
    else Ok(OkStatus, WithEntityType(logs[id].columns))
  }

  /** The two columns the summary reads. */
  datatype SummaryRow = SummaryRow(action: Option<string>, tableName: Option<string>)

  /** The property name a column value becomes when used as an object key:
      `null` becomes "null". */
  function Key(v: Option<string>): string {
    if v.Some? then v.value else "null"
  }

  /** `counts[k] = (counts[k] || 0) + 1` for each key in turn. */
  function Tally(keys: seq<string>): map<string, nat>
    decreases |keys|
  {
    if keys == [] then map[]
    else
      var m := Tally(keys[..|keys| - 1]);
      var k := keys[|keys| - 1];
      m[k := (if k in m then m[k] else 0) + 1]
  }

  /** A tally has a key for each distinct value and counts exactly how often
      it occurs. */
  lemma {:induction false} TallyCounts(keys: seq<string>)
    ensures forall k :: k in Tally(keys) <==> k in keys
    ensures forall k :: k in Tally(keys) ==> Tally(keys)[k] == multiset(keys)[k]
    decreases |keys|
  {
    if keys != [] {
      var front := keys[..|keys| - 1];
      var last := keys[|keys| - 1];
      TallyCounts(front);
      assert keys == front + [last];
      assert multiset(keys) == multiset(front) + multiset{last};
      forall k ensures k in keys <==> k in front || k == last {
        assert k in keys <==> k in multiset(keys);
        assert k in front <==> k in multiset(front);
      }
    }
  }

  ghost function Pick(m: map<string, nat>): (k: string)
    requires |m| > 0
    ensures k in m
  {
    var k :| k in m; k
  }

  /** The sum of the counts in a tally. */
  ghost function CountSum(m: map<string, nat>): nat
    decreases |m|
  {
    if |m| == 0 then 0
    else m[Pick(m)] + CountSum(m - {Pick(m)})
  }

  /** The sum does not depend on which key is taken first. */
  lemma {:induction false} CountSumRemove(m: map<string, nat>, k: string)
    requires k in m
    ensures CountSum(m) == m[k] + CountSum(m - {k})
    decreases |m|
  {
    var j := Pick(m);
    if j != k {
      CountSumRemove(m - {j}, k);
      CountSumRemove(m - {k}, j);
      assert m - {j} - {k} == m - {k} - {j};
    }
  }

  lemma {:induction false} CountSumBump(m: map<string, nat>, k: string)
    ensures CountSum(m[k := (if k in m then m[k] else 0) + 1]) == CountSum(m) + 1
  {
    var m2 := m[k := (if k in m then m[k] else 0) + 1];
    CountSumRemove(m2, k);
    if k in m {
      CountSumRemove(m, k);
      assert m2 - {k} == m - {k};
    } else {
      assert m2 - {k} == m;
    }
  }

  /** Every key counted adds one: the counts add up to the number of keys. */
  lemma {:induction false} TallySum(keys: seq<string>)
    ensures CountSum(Tally(keys)) == |keys|
    decreases |keys|
  {
    if keys != [] {
      TallySum(keys[..|keys| - 1]);
      CountSumBump(Tally(keys[..|keys| - 1]), keys[|keys| - 1]);
    }
  }

  datatype Period = Period(start: string, end: string)

  datatype AuditSummary = AuditSummary(
    period: Period,
    totalEvents: nat,
    byAction: map<string, nat>,
    byEntity: map<string, nat>)

  function ActionKey(row: SummaryRow): string {
    Key(row.action)
  }

  function TableKey(row: SummaryRow): string {
    Key(row.tableName)
  }

  /** `getAuditSummary` over the rows the date-range query returns (`null`
      counts as no rows). `today` and `weekAgo` are the default end and
      start dates. */
  function GetAuditSummary(startDate: Option<string>, endDate: Option<string>, today: string, weekAgo: string,
                           data: Option<seq<SummaryRow>>): (r: AuditSummary)
    ensures r.period.start == OrElse(startDate, Some(weekAgo)).value
    ensures r.period.end == OrElse(endDate, Some(today)).value
    ensures var rows := data.GetOr([]);
      && r.totalEvents == |rows|
      && (forall a :: a in r.byAction <==> exists i :: 0 <= i < |rows| && ActionKey(rows[i]) == a)
      && (forall t :: t in r.byEntity <==> exists i :: 0 <= i < |rows| && TableKey(rows[i]) == t)
      && (forall a :: a in r.byAction ==> r.byAction[a] == multiset(Map(rows, ActionKey))[a])
      && (forall t :: t in r.byEntity ==> r.byEntity[t] == multiset(Map(rows, TableKey))[t])
  {
    var rows := data.GetOr([]);
    var actions := Map(rows, ActionKey);
    var tables := Map(rows, TableKey);
    TallyCounts(actions);
    TallyCounts(tables);
    assert forall a :: a in actions <==> exists i :: 0 <= i < |rows| && ActionKey(rows[i]) == a;
    assert forall t :: t in tables <==> exists i :: 0 <= i < |rows| && TableKey(rows[i]) == t;
    AuditSummary(
      Period(OrElse(startDate, Some(weekAgo)).value, OrElse(endDate, Some(today)).value),
      |rows|, Tally(actions), Tally(tables))
  }

  /** The total is the sum of the action counts and also the sum of the
      table counts: every event is counted once in each. */
  lemma SummaryTotalsAgree(startDate: Option<string>, endDate: Option<string>, today: string, weekAgo: string,
                           data: Option<seq<SummaryRow>>)
    ensures var r := GetAuditSummary(startDate, endDate, today, weekAgo, data);
      r.totalEvents == CountSum(r.byAction) && r.totalEvents == CountSum(r.byEntity)
  {
    var rows := data.GetOr([]);
    TallySum(Map(rows, ActionKey));
    TallySum(Map(rows, TableKey));
  }
}
