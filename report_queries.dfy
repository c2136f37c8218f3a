/**
 * The report queries of `pyfaf.queries.report` that aggregate or select:
 * the history-table selector shared with the problem rankings, summed
 * history counts, per-component and per-report counts, report selection by
 * type and minimal count, one report per problem, and the two bulk updates.
 */
module ReportQueries {
  import opened Wrappers
  import opened Storage
  import opened Aggregation
  import opened Sorting

  // ---------------------------------------------------------------------
  // History table selection

  datatype HistoryTarget = HistoryTarget(table: HistoryTable, field: DateField)

  /**
   * `d`/`daily` select the daily table, `w`/`weekly` the weekly one, and
   * every other token, `m`, `monthly` and unknown ones alike, the monthly one.
   */
  function GetHistoryTarget(target: string := "daily"): (r: HistoryTarget)
    ensures r.field == BucketField(r.table)
    ensures r.table == Daily <==> target == "d" || target == "daily"
    ensures r.table == Weekly <==> target == "w" || target == "weekly"
    ensures r.table == Monthly <==> target !in {"d", "daily", "w", "weekly"}
  {
    if target in ["d", "daily"] then HistoryTarget(Daily, Day)
    else if target in ["w", "weekly"] then HistoryTarget(Weekly, Week)
    else HistoryTarget(Monthly, Month)
  }

  /** Short and long spellings resolve identically; unknown tokens fall back to monthly. */
  lemma SpellingsAgree(unknown: string)
    requires unknown !in {"d", "daily", "w", "weekly"}
    ensures GetHistoryTarget() == HistoryTarget(Daily, Day)
    ensures GetHistoryTarget("d") == GetHistoryTarget("daily") == HistoryTarget(Daily, Day)
    ensures GetHistoryTarget("w") == GetHistoryTarget("weekly") == HistoryTarget(Weekly, Week)
    ensures GetHistoryTarget("m") == GetHistoryTarget("monthly") == GetHistoryTarget(unknown) == HistoryTarget(Monthly, Month)
  {
  }

  /** The rows of the history table a `history` token selects. */
  function HistoryRows(store: Store, history: string): seq<HistoryRow> {
    store.Rows(GetHistoryTarget(history).table)
  }

  // ---------------------------------------------------------------------
  // The release restriction of these helpers: an empty id list restricts nothing.

  predicate ReleaseSelected(releaseIds: seq<int>, releaseId: int) {
    |releaseIds| == 0 || releaseId in releaseIds
  }

  function InSelectedRelease(releaseIds: seq<int>): HistoryRow -> bool {
    (h: HistoryRow) => ReleaseSelected(releaseIds, h.releaseId)
  }

  function RowCount(h: HistoryRow): int {
    h.count
  }

  function TotalCount(rows: seq<HistoryRow>): int {
    if |rows| == 0 then 0 else rows[0].count + TotalCount(rows[1..])
  }

  /** The counts of the rows in the selected releases, added up row by row. */
  function SelectedCount(rows: seq<HistoryRow>, releaseIds: seq<int>): int {
    if |rows| == 0 then 0
    else (if ReleaseSelected(releaseIds, rows[0].releaseId) then rows[0].count else 0)
         + SelectedCount(rows[1..], releaseIds)
  }

  lemma {:induction false} TotalOfSelected(rows: seq<HistoryRow>, releaseIds: seq<int>)
    ensures TotalCount(Where(rows, InSelectedRelease(releaseIds))) == SelectedCount(rows, releaseIds)
  {
    if |rows| > 0 {
      TotalOfSelected(rows[1..], releaseIds);
      var keep := InSelectedRelease(releaseIds);
      var rest := Where(rows[1..], keep);
      var head: seq<HistoryRow> := if keep(rows[0]) then [rows[0]] else [];
      assert Where(rows, keep) == head + rest;
      if keep(rows[0]) {
        assert (head + rest)[1..] == rest;
      } else {
        assert head + rest == rest;
      }
    }
  }

  /**
   * `get_history_sum`: `SELECT SUM(count)` over the history table `history`
   * selects, restricted to the given releases when there are any.  SQL's
   * `SUM` of no rows is `NULL`.
   */
  function HistorySum(store: Store, releaseIds: seq<int> := [], history: string := "daily"): (r: Option<int>)
    ensures var rows := HistoryRows(store, history);
      r.None? <==> forall i :: 0 <= i < |rows| ==> !ReleaseSelected(releaseIds, rows[i].releaseId)
    ensures r.Some? ==> r.value == SelectedCount(HistoryRows(store, history), releaseIds)
  {
    var rows := HistoryRows(store, history);
    var selected := Where(rows, InSelectedRelease(releaseIds));
    TotalOfSelected(rows, releaseIds);
    if |selected| == 0 then None else Some(TotalCount(selected))
  }

  /** With no release restriction every row is counted. */
  lemma {:induction false} SelectedCountAll(rows: seq<HistoryRow>)
    ensures SelectedCount(rows, []) == TotalCount(rows)
  {
    if |rows| > 0 {
      SelectedCountAll(rows[1..]);
    }
  }

  /** With no release ids the sum runs over every row of the table. */
  lemma HistorySumAllReleases(store: Store, history: string)
    ensures var rows := HistoryRows(store, history);
      HistorySum(store, [], history) == if |rows| == 0 then None else Some(TotalCount(rows))
  {
    var rows := HistoryRows(store, history);
    SelectedCountAll(rows);
    if |rows| > 0 {
      assert ReleaseSelected([], rows[0].releaseId);
    }
  }

  // ---------------------------------------------------------------------
  // Reports per component

  /** The component a history row counts for: its report's component, when the joins find both. */
  function ComponentOfRow(store: Store, releaseIds: seq<int>, h: HistoryRow): Option<int> {
    if !ReleaseSelected(releaseIds, h.releaseId) then None
    else match FindReport(store.reports, h.reportId)
      case None => None
      case Some(report) =>
        match FindComponent(store.components, report.componentId)
        case None => None
        case Some(c) => Some(c.id)
  }

  /** Under unique report ids, a row counts for `cid` exactly when its release is selected, its report is stored with component `cid`, and that component is stored. */
  lemma ComponentOfRowJoins(store: Store, releaseIds: seq<int>, h: HistoryRow, cid: int)
    requires UniqueBy(store.reports, ReportKey)
    ensures ComponentOfRow(store, releaseIds, h) == Some(cid) <==>
      ReleaseSelected(releaseIds, h.releaseId) &&
      (exists x :: x in store.reports && x.id == h.reportId && x.componentId == cid) &&
      (exists c :: c in store.components && c.id == cid)
  {
    var f := FindReport(store.reports, h.reportId);
    if ReleaseSelected(releaseIds, h.releaseId) && (exists x :: x in store.reports && x.id == h.reportId && x.componentId == cid) {
      var x :| x in store.reports && x.id == h.reportId && x.componentId == cid;
      SameKeySame(store.reports, ReportKey, f.value, x);
    }
  }

  function ByComponent(store: Store, releaseIds: seq<int>): HistoryRow -> Option<int> {
    (h: HistoryRow) => ComponentOfRow(store, releaseIds, h)
  }

  /** `get_report_count_by_component`: components with their summed history counts, largest first. */
  function ReportCountByComponent(store: Store, releaseIds: seq<int> := [], history: string := "daily"): (r: seq<Counted<Component>>)
    ensures NonIncreasing(r, CountKey)
  {
    SortDesc(Aggregate(store.components, ComponentKey, HistoryRows(store, history), ByComponent(store, releaseIds), RowCount), CountKey)
  }

  /** Each row's count is the sum of the history counts of that component's reports. */
  lemma ComponentCountIsSum(store: Store, releaseIds: seq<int>, history: string, i: int)
    requires 0 <= i < |ReportCountByComponent(store, releaseIds, history)|
    ensures var c := ReportCountByComponent(store, releaseIds, history)[i];
      && c.entity in store.components
      && InGroup(HistoryRows(store, history), ByComponent(store, releaseIds), c.entity.id)
      && c.count == RowSum(HistoryRows(store, history), ByComponent(store, releaseIds), RowCount, c.entity.id)
  {
    var a := Aggregate(store.components, ComponentKey, HistoryRows(store, history), ByComponent(store, releaseIds), RowCount);
    var c := ReportCountByComponent(store, releaseIds, history)[i];
    assert c in multiset(a);
    AggregateSound(store.components, ComponentKey, HistoryRows(store, history), ByComponent(store, releaseIds), RowCount, c);
  }

  /** Every component with a counted history row has its row. */
  lemma ComponentWithRowsListed(store: Store, releaseIds: seq<int>, history: string, j: int)
    requires 0 <= j < |store.components|
    requires InGroup(HistoryRows(store, history), ByComponent(store, releaseIds), store.components[j].id)
    ensures Counted(store.components[j], RowSum(HistoryRows(store, history), ByComponent(store, releaseIds), RowCount, store.components[j].id))
      in ReportCountByComponent(store, releaseIds, history)
  {
    AggregateComplete(store.components, ComponentKey, HistoryRows(store, history), ByComponent(store, releaseIds), RowCount, j);
    var a := Aggregate(store.components, ComponentKey, HistoryRows(store, history), ByComponent(store, releaseIds), RowCount);
    var c := Counted(store.components[j], RowSum(HistoryRows(store, history), ByComponent(store, releaseIds), RowCount, store.components[j].id));
    assert c in multiset(a);
  }

  /** One row per component. */
  lemma OneRowPerComponent(store: Store, releaseIds: seq<int>, history: string)
    requires UniqueBy(store.components, ComponentKey)
    ensures UniqueBy(ReportCountByComponent(store, releaseIds, history), EntityKey(ComponentKey))
  {
    var m := GroupSum(PairsOf(HistoryRows(store, history), ByComponent(store, releaseIds), RowCount));
    JoinCountsUniqueKeys(store.components, ComponentKey, m);
    SortKeepsUniqueKeys(JoinCounts(store.components, ComponentKey, m), EntityKey(ComponentKey), CountKey);
  }

  /** The report a history row counts for when its report belongs to `component`. */
  function ReportOfComponentRow(store: Store, component: Component, releaseIds: seq<int>, h: HistoryRow): Option<int> {
    if !ReleaseSelected(releaseIds, h.releaseId) then None
    else match FindReport(store.reports, h.reportId)
      case None => None
      case Some(report) =>
        match FindComponent(store.components, report.componentId)
        case None => None
        case Some(c) => if c.id == component.id then Some(report.id) else None
  }

  /** Under unique report ids, a row counts for report `rid` of `component` exactly when its release is selected, `rid` is its report, that report is stored with the component's id, and a component with that id is stored. */
  lemma ReportOfComponentRowJoins(store: Store, component: Component, releaseIds: seq<int>, h: HistoryRow, rid: int)
    requires UniqueBy(store.reports, ReportKey)
    ensures ReportOfComponentRow(store, component, releaseIds, h) == Some(rid) <==>
      ReleaseSelected(releaseIds, h.releaseId) && rid == h.reportId &&
      (exists x :: x in store.reports && x.id == h.reportId && x.componentId == component.id) &&
      (exists c :: c in store.components && c.id == component.id)
  {
    var f := FindReport(store.reports, h.reportId);
    if ReleaseSelected(releaseIds, h.releaseId) && (exists x :: x in store.reports && x.id == h.reportId && x.componentId == component.id) {
      var x :| x in store.reports && x.id == h.reportId && x.componentId == component.id;
      SameKeySame(store.reports, ReportKey, f.value, x);
    }
  }

  function ByReportOf(store: Store, component: Component, releaseIds: seq<int>): HistoryRow -> Option<int> {
    (h: HistoryRow) => ReportOfComponentRow(store, component, releaseIds, h)
  }

  /** `get_report_stats_by_component`: the component's reports with their summed history counts, largest first. */
  function ReportStatsByComponent(store: Store, component: Component, releaseIds: seq<int> := [], history: string := "daily"): (r: seq<Counted<Report>>)
    ensures NonIncreasing(r, CountKey)
  {
    SortDesc(Aggregate(store.reports, ReportKey, HistoryRows(store, history), ByReportOf(store, component, releaseIds), RowCount), CountKey)
  }

  /** Only the component's own reports are listed, each with the sum of its history counts. */
  lemma ReportStatsAreComponentSums(store: Store, component: Component, releaseIds: seq<int>, history: string, i: int)
    requires UniqueBy(store.reports, ReportKey)
    requires 0 <= i < |ReportStatsByComponent(store, component, releaseIds, history)|
    ensures var c := ReportStatsByComponent(store, component, releaseIds, history)[i];
      && c.entity in store.reports
      && c.entity.componentId == component.id
      && c.count == RowSum(HistoryRows(store, history), ByReportOf(store, component, releaseIds), RowCount, c.entity.id)
  {
    var rows := HistoryRows(store, history);
    var group := ByReportOf(store, component, releaseIds);
    var a := Aggregate(store.reports, ReportKey, rows, group, RowCount);
    var c := ReportStatsByComponent(store, component, releaseIds, history)[i];
    assert c in multiset(a);
    AggregateSound(store.reports, ReportKey, rows, group, RowCount, c);
    var k :| 0 <= k < |rows| && group(rows[k]) == Some(c.entity.id);
    var report := FindReport(store.reports, rows[k].reportId).value;
    SameKeySame(store.reports, ReportKey, report, c.entity);
  }

  /** Every report of the component with a counted row is listed, with the sum of its history counts. */
  lemma ReportStatsComplete(store: Store, component: Component, releaseIds: seq<int>, history: string, j: int)
    requires 0 <= j < |store.reports|
    requires InGroup(HistoryRows(store, history), ByReportOf(store, component, releaseIds), store.reports[j].id)
    ensures Counted(store.reports[j], RowSum(HistoryRows(store, history), ByReportOf(store, component, releaseIds), RowCount, store.reports[j].id))
      in ReportStatsByComponent(store, component, releaseIds, history)
  {
    var rows := HistoryRows(store, history);
    var group := ByReportOf(store, component, releaseIds);
    AggregateComplete(store.reports, ReportKey, rows, group, RowCount, j);
    var a := Aggregate(store.reports, ReportKey, rows, group, RowCount);
    var c := Counted(store.reports[j], RowSum(rows, group, RowCount, store.reports[j].id));
    assert c in multiset(a);
  }

  /** One row per report: the query groups by the report. */
  lemma OneRowPerReport(store: Store, component: Component, releaseIds: seq<int>, history: string)
    requires UniqueBy(store.reports, ReportKey)
    ensures UniqueBy(ReportStatsByComponent(store, component, releaseIds, history), EntityKey(ReportKey))
  {
    var m := GroupSum(PairsOf(HistoryRows(store, history), ByReportOf(store, component, releaseIds), RowCount));
    JoinCountsUniqueKeys(store.reports, ReportKey, m);
    SortKeepsUniqueKeys(JoinCounts(store.reports, ReportKey, m), EntityKey(ReportKey), CountKey);
  }

  // ---------------------------------------------------------------------
  // Report selection

  /** `min_count <= 0` means no threshold. */
  predicate MeetsMinCount(minCount: int, count: int) {
    minCount <= 0 || count >= minCount
  }

  function OfTypeWithMinCount(reportType: string, minCount: int): Report -> bool {
    (x: Report) => x.reportType == reportType && MeetsMinCount(minCount, x.count)
  }

  function UnassignedOfType(reportType: string, minCount: int): Report -> bool {
    (x: Report) => x.reportType == reportType && x.problemId.None? && MeetsMinCount(minCount, x.count)
  }

  function WithoutProblem(): Report -> bool {
    (x: Report) => x.problemId.None?
  }

  /** `get_reports_by_type`. */
  function ReportsByType(reports: seq<Report>, reportType: string, minCount: int := 0): (r: seq<Report>)
    ensures forall i :: 0 <= i < |r| ==> r[i] in reports && r[i].reportType == reportType && MeetsMinCount(minCount, r[i].count)
    ensures forall i :: 0 <= i < |reports| && reports[i].reportType == reportType && MeetsMinCount(minCount, reports[i].count) ==> reports[i] in r
  {
    Where(reports, OfTypeWithMinCount(reportType, minCount))
  }

  /** `get_unassigned_reports`. */
  function UnassignedReports(reports: seq<Report>, reportType: string, minCount: int := 0): (r: seq<Report>)
    ensures forall i :: 0 <= i < |r| ==> r[i] in reports && r[i].reportType == reportType && r[i].problemId.None? && MeetsMinCount(minCount, r[i].count)
  {
    Where(reports, UnassignedOfType(reportType, minCount))
  }

  /** A threshold of zero or below is the default: no threshold at all. */
  lemma NoThresholdBelowOne(reports: seq<Report>, reportType: string, minCount: int)
    requires minCount <= 0
    ensures ReportsByType(reports, reportType, minCount) == ReportsByType(reports, reportType)
    ensures UnassignedReports(reports, reportType, minCount) == UnassignedReports(reports, reportType)
  {
    WhereSame(reports, OfTypeWithMinCount(reportType, minCount), OfTypeWithMinCount(reportType, 0));
    WhereSame(reports, UnassignedOfType(reportType, minCount), UnassignedOfType(reportType, 0));
  }

  /** The unassigned reports are exactly the reports of the type and threshold that have no problem, in the same order. */
  lemma UnassignedAreReportsWithoutProblem(reports: seq<Report>, reportType: string, minCount: int)
    ensures UnassignedReports(reports, reportType, minCount) == Where(ReportsByType(reports, reportType, minCount), WithoutProblem())
  {
    WhereWhere(reports, OfTypeWithMinCount(reportType, minCount), WithoutProblem(), UnassignedOfType(reportType, minCount));
  }

  /** The grouping of `get_reports_for_problems`: reports of the type that belong to a problem, by problem. */
  function ProblemOfTypedReport(reportType: string): Report -> Option<int> {
    (x: Report) => if x.reportType == reportType then x.problemId else None
  }

  /** `MIN(report.id) GROUP BY problem_id` over the reports of the type. */
  function FirstReportIds(reports: seq<Report>, reportType: string): map<int, int> {
    GroupMin(PairsOf(reports, ProblemOfTypedReport(reportType), ReportKey))
  }

  /** Whether `id` is the value of some key of `m`. */
  predicate IsValueOf(m: map<int, int>, id: int) {
    exists k :: k in m && m[k] == id
  }

  function IdAmong(m: map<int, int>): Report -> bool {
    (x: Report) => IsValueOf(m, x.id)
  }

  /** `get_reports_for_problems`: the reports whose id is a per-problem minimum. */
  function ReportsForProblems(reports: seq<Report>, reportType: string): seq<Report> {
    Where(reports, IdAmong(FirstReportIds(reports, reportType)))
  }

  /** A problem's minimal id is no larger than the id of any of its reports of the type. */
  lemma FirstIdIsLeast(reports: seq<Report>, reportType: string, k: int, y: Report)
    requires k in FirstReportIds(reports, reportType)
    requires y in reports && y.reportType == reportType && y.problemId == Some(k)
    ensures FirstReportIds(reports, reportType)[k] <= y.id
  {
    var group := ProblemOfTypedReport(reportType);
    var pairs := PairsOf(reports, group, ReportKey);
    var v :| 0 <= v < |reports| && reports[v] == y;
    PairsOfMember(reports, group, ReportKey, Pair(k, y.id));
    var n :| 0 <= n < |pairs| && pairs[n] == Pair(k, y.id);
    GroupMinIsMin(pairs);
  }

  /** A problem's minimal id is the id of one of its reports of the type. */
  lemma FirstIdIsReport(reports: seq<Report>, reportType: string, k: int)
    requires k in FirstReportIds(reports, reportType)
    ensures exists z :: 0 <= z < |reports| && reports[z].reportType == reportType && reports[z].problemId == Some(k) && reports[z].id == FirstReportIds(reports, reportType)[k]
  {
    var group := ProblemOfTypedReport(reportType);
    var pairs := PairsOf(reports, group, ReportKey);
    var m := FirstReportIds(reports, reportType);
    GroupMinIsMin(pairs);
    PairsOfMember(reports, group, ReportKey, Pair(k, m[k]));
    var z :| 0 <= z < |reports| && group(reports[z]) == Some(k) && reports[z].id == m[k];
  }

  /** Each report chosen is of the type, belongs to a problem, and has the least id among that problem's reports of the type. */
  lemma ChosenReportIsFirst(reports: seq<Report>, reportType: string, i: int)
    requires UniqueBy(reports, ReportKey)
    requires 0 <= i < |ReportsForProblems(reports, reportType)|
    ensures var x := ReportsForProblems(reports, reportType)[i];
      && x in reports && x.reportType == reportType && x.problemId.Some?
      && forall y :: y in reports && y.reportType == reportType && y.problemId == x.problemId ==> x.id <= y.id
  {
    var m := FirstReportIds(reports, reportType);
    var x := ReportsForProblems(reports, reportType)[i];
    assert x in reports && IsValueOf(m, x.id);
    var k :| k in m && m[k] == x.id;
    FirstIdIsReport(reports, reportType, k);
    var z :| 0 <= z < |reports| && reports[z].reportType == reportType && reports[z].problemId == Some(k) && reports[z].id == m[k];
    var w :| 0 <= w < |reports| && reports[w] == x;
    assert z == w;
    forall y | y in reports && y.reportType == reportType && y.problemId == x.problemId ensures x.id <= y.id {
      FirstIdIsLeast(reports, reportType, k, y);
    }
  }

  /** Every problem with a report of the type has a chosen report. */
  lemma EveryProblemHasChosenReport(reports: seq<Report>, reportType: string, y: Report)
    requires y in reports && y.reportType == reportType && y.problemId.Some?
    ensures exists x :: x in ReportsForProblems(reports, reportType) && x.problemId == y.problemId
  {
    var group := ProblemOfTypedReport(reportType);
    var pairs := PairsOf(reports, group, ReportKey);
    var m := FirstReportIds(reports, reportType);
    var k := y.problemId.value;
    var v :| 0 <= v < |reports| && reports[v] == y;
    PairsOfMember(reports, group, ReportKey, Pair(k, y.id));
    var n :| 0 <= n < |pairs| && pairs[n] == Pair(k, y.id);
    GroupMinIsMin(pairs);
    FirstIdIsReport(reports, reportType, k);
    var z :| 0 <= z < |reports| && reports[z].reportType == reportType && reports[z].problemId == Some(k) && reports[z].id == m[k];
    assert IsValueOf(m, reports[z].id);
    assert reports[z] in ReportsForProblems(reports, reportType);
  }

  /** No problem is represented twice. */
  lemma OneReportPerProblem(reports: seq<Report>, reportType: string)
    requires UniqueBy(reports, ReportKey)
    ensures var r := ReportsForProblems(reports, reportType);
      forall i, j :: 0 <= i < j < |r| ==> r[i].problemId != r[j].problemId
  {
    var r := ReportsForProblems(reports, reportType);
    assert UniqueBy(reports, ReportKey);
    WhereKeepsUniqueKeys(reports, IdAmong(FirstReportIds(reports, reportType)), ReportKey);
    forall i, j | 0 <= i < j < |r| ensures r[i].problemId != r[j].problemId {
      ChosenReportIsFirst(reports, reportType, i);
      ChosenReportIsFirst(reports, reportType, j);
      assert ReportKey(r[i]) != ReportKey(r[j]);
    }
  }

  // ---------------------------------------------------------------------
  // Bulk updates

  predicate LowCount(x: Report, reportType: string, minCount: int) {
    x.reportType == reportType && x.count < minCount
  }

  function IsLowCount(reportType: string, minCount: int): Report -> bool {
    (x: Report) => LowCount(x, reportType, minCount)
  }

  /** The table after `UPDATE reports SET problem_id = NULL WHERE type = t AND count < min_count`. */
  function DetachLowCount(reports: seq<Report>, reportType: string, minCount: int): (r: seq<Report>)
    ensures |r| == |reports|
    ensures forall i :: 0 <= i < |r| && LowCount(reports[i], reportType, minCount) ==> r[i].problemId.None?
    ensures forall i :: 0 <= i < |r| ==> r[i].(problemId := reports[i].problemId) == reports[i]
    ensures forall i :: 0 <= i < |r| && !LowCount(reports[i], reportType, minCount) ==> r[i] == reports[i]
  {
    seq(|reports|, i requires 0 <= i < |reports| =>
      if LowCount(reports[i], reportType, minCount) then reports[i].(problemId := None) else reports[i])
  }

  /** Detaching twice detaches nothing more. */
  lemma DetachIdempotent(reports: seq<Report>, reportType: string, minCount: int)
    ensures DetachLowCount(DetachLowCount(reports, reportType, minCount), reportType, minCount)
      == DetachLowCount(reports, reportType, minCount)
  {
  }

  /** After the detach no report below the threshold represents its problem. */
  lemma DetachedNeverChosen(reports: seq<Report>, reportType: string, minCount: int)
    requires UniqueBy(reports, ReportKey)
    ensures forall x :: x in ReportsForProblems(DetachLowCount(reports, reportType, minCount), reportType) ==> x.count >= minCount
  {
    var after := DetachLowCount(reports, reportType, minCount);
    assert UniqueBy(after, ReportKey) by {
      forall i, j | 0 <= i < j < |after| ensures after[i].id != after[j].id {
        assert after[i].id == reports[i].id && after[j].id == reports[j].id;
      }
    }
    var r := ReportsForProblems(after, reportType);
    forall x | x in r ensures x.count >= minCount {
      var i :| 0 <= i < |r| && r[i] == x;
      ChosenReportIsFirst(after, reportType, i);
      var k :| 0 <= k < |after| && after[k] == x;
    }
  }

  /** The frames after every reference to symbol source `from` is replaced by `to`. */
  function ReplaceSymbolSource(frames: seq<Frame>, from: int, to: int): (r: seq<Frame>)
    ensures |r| == |frames|
    ensures forall i :: 0 <= i < |r| && frames[i].symbolSourceId == from ==> r[i].symbolSourceId == to
    ensures forall i :: 0 <= i < |r| ==> r[i].id == frames[i].id
    ensures forall i :: 0 <= i < |r| && frames[i].symbolSourceId != from ==> r[i] == frames[i]
  {
    seq(|frames|, i requires 0 <= i < |frames| =>
      if frames[i].symbolSourceId == from then frames[i].(symbolSourceId := to) else frames[i])
  }

  /** The number of frames that refer to symbol source `src`. */
  function References(frames: seq<Frame>, src: int): nat {
    if |frames| == 0 then 0
    else (if frames[0].symbolSourceId == src then 1 else 0) + References(frames[1..], src)
  }

  /** The frames of `from` move over to `to`: `from` is left without frames and `to` gains all of them. */
  lemma {:induction false} ReplaceMovesReferences(frames: seq<Frame>, from: int, to: int)
    requires from != to
    ensures References(ReplaceSymbolSource(frames, from, to), from) == 0
    ensures References(ReplaceSymbolSource(frames, from, to), to) == References(frames, to) + References(frames, from)
  {
    if |frames| > 0 {
      ReplaceMovesReferences(frames[1..], from, to);
      assert ReplaceSymbolSource(frames, from, to)[1..] == ReplaceSymbolSource(frames[1..], from, to);
    }
  }

  /** The session state the two bulk updates change. */
  class Session {
    var reports: seq<Report>
    var frames: seq<Frame>

    constructor (reports: seq<Report>, frames: seq<Frame>)
      ensures this.reports == reports && this.frames == frames
    {
      this.reports := reports;
      this.frames := frames;
    }

    /**
     * `remove_problem_from_low_count_reports_by_type`: one bulk `UPDATE`;
     * returns the number of rows it matched.
     */
    method RemoveProblemFromLowCountReportsByType(reportType: string, minCount: int) returns (matched: nat)
      modifies this
      ensures reports == DetachLowCount(old(reports), reportType, minCount)
      ensures matched == |Where(old(reports), IsLowCount(reportType, minCount))|
      ensures frames == old(frames)
    {
      matched := |Where(reports, IsLowCount(reportType, minCount))|;
      reports := DetachLowCount(reports, reportType, minCount);
    }

    /** `update_frame_ssource`: reassigns the symbol source of each frame that refers to `from`. */
    method UpdateFrameSymbolSource(from: int, to: int)
      modifies this
      ensures frames == ReplaceSymbolSource(old(frames), from, to)
      ensures reports == old(reports)
    {
      ghost var replaced := ReplaceSymbolSource(frames, from, to);
      var i := 0;
      while i < |frames|
        invariant 0 <= i <= |frames| == |replaced|
        invariant forall k :: 0 <= k < i ==> frames[k] == replaced[k]
        invariant forall k :: i <= k < |frames| ==> frames[k] == old(frames)[k]
        invariant reports == old(reports)
      {
        if frames[i].symbolSourceId == from {
          frames := frames[i := frames[i].(symbolSourceId := to)];
        }
        i := i + 1;
      }
    }
  }
}
