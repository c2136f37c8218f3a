# Problem ranking of the ABRT analytics server (faf), modelled in Dafny

faf clusters crash reports into *problems* and stores, for every report,
its occurrence counts per day, week and month and per operating-system
release (the `ReportHistoryDaily`, `ReportHistoryWeekly` and
`ReportHistoryMonthly` tables). This project models the queries that turn
those counters into rankings:

- `query_problems`: problems ordered by the summed history counts of their
  reports. The counts can be restricted to some releases, to some
  components and by an extra row filter. A post-processing step can follow.
- `query_hot_problems`: the same ranking over a trailing window. The default
  window starts two weeks before today.
- `query_longterm_problems` and `prioritize_longterm_problems`: problems
  that have lived at least one whole month, ordered by their average count
  per observed calendar month.
- The report queries these share or sit beside:
  - the history-table selector `get_history_target`;
  - `get_history_sum`, `get_report_count_by_component` and
    `get_report_stats_by_component`;
  - report selection by type and minimal count;
  - one report per problem;
  - the two bulk updates, which detach low-count reports and move frames
    to another symbol source.

Modules:

- `Wrappers`: `Option` and `Result`.
- `Dates`: the part of Python's `datetime.date` the queries use, i.e. the
  proleptic Gregorian calendar from year 1 to 9999. It has day arithmetic,
  with `OverflowError` as `None`, and `toordinal()` as the independent
  reference for that arithmetic.
- `Sorting`: Python's stable `sorted(..., reverse=True)`.
- `Aggregation`: SQL `WHERE`, `GROUP BY` with `SUM` or `MIN`, and the join
  back to an entity table. Each has a reference definition that works row
  by row.
- `Storage`: the tables.
  - `Problem` is a class. Its id and first and last occurrence are fixed
    columns. Its `count` and `rank` attributes are written by the ranking
    queries.
  - Every other row is a value.
- `ReportQueries`: `src/pyfaf/queries/report.py`. The class `Session`
  stands for the state changed by the two bulk updates.
- `ProblemQueries`: `src/pyfaf/queries/problem.py`.

Two behaviours of the code shape the model:

- An empty list of release ids makes the problem rankings empty, because
  `query_problems` filters with `IN` unconditionally
  (`src/pyfaf/queries/problem.py:45`). The report aggregates instead treat
  an empty list as "all releases", because they add the release filter
  only under `if opsysrelease_ids:` (`src/pyfaf/queries/report.py:70`,
  `:177` and `:218`).
- The code sets no tie-break for equal counts: it orders by the summed
  count alone (`src/pyfaf/queries/problem.py:57`,
  `src/pyfaf/queries/report.py:175` and `:216`). The SQL order of ties is
  therefore open, and the contracts about query order promise only the
  non-increasing order. The model uses the stable order of its input as
  one admissible choice. The long-term ranking re-sorts with Python's
  stable sort, which the model reproduces exactly.

The default arguments of the source are default parameters of the model:
`history` is `"daily"` for the hot ranking and the report aggregates and
`"monthly"` for the long-term ranking, `component_ids` and `last_date` are
`None`, `min_count` is `0`, a missing `rank_filter_fn` keeps every row and
a missing `post_process_fn` is `NoPostProcess`. The report aggregates take
the `history` token and resolve it through `GetHistoryTarget`, as the
source does.

## Model

| member | source | states |
|---|---|---|
| Dates.MinusDays | src/pyfaf/queries/problem.py:82-83 | `d - timedelta(days=n)` is a valid date not after `d`, and strictly before it when `n > 0`; which `n` give `None` (Python's overflow below year 1) is stated by `MinusDaysOrdinal` |
| Dates.MinusDaysOrdinal | src/pyfaf/queries/problem.py:83 | the subtraction succeeds exactly when the day number stays at least 1, and then lowers the day number by exactly `n` |
| Dates.PreviousDay | src/pyfaf/queries/problem.py:130 | the day before is `None` only for 0001-01-01; otherwise it is a valid, strictly earlier date |
| Dates.PreviousDayOrdinal | src/pyfaf/queries/problem.py:130 | the day before has day number one less |
| Dates.MinFirstOccurrence | src/pyfaf/queries/problem.py:129-131 | the minimal first occurrence is the first day of the previous month (December of the year before in January), strictly before today; it fails only in January of year 1 |
| Dates.FirstOfMonth | src/pyfaf/queries/problem.py:130-131 | `replace(day=1)`: a valid date in the same year and month, on day 1, not after the given date |
| Sorting.SortDesc | src/pyfaf/queries/problem.py:119-120 | the result is a permutation of the input in non-increasing key order, and elements with equal keys keep their input order |
| Aggregation.GroupSum | src/pyfaf/queries/problem.py:41-50 | the grouped sums have a key exactly for the groups that have a row |
| Aggregation.GroupSumIsSum | src/pyfaf/queries/problem.py:41-50 | each group's sum equals the row-by-row reference sum |
| Aggregation.SumForAbsent | src/pyfaf/queries/problem.py:41-50 | a group without rows sums to zero |
| Aggregation.SumForPositive | src/pyfaf/queries/problem.py:41-50 | a group with a row and only positive values has a positive sum |
| Aggregation.Where | src/pyfaf/queries/report.py:299-302 | a `.filter`: every kept element is an input element that passes the test, every passing element is kept, and the result is no longer than the input |
| Aggregation.WhereAllKept | src/pyfaf/queries/report.py:299-302 | a filter every row passes returns the table unchanged, in the same order and with the same multiplicities |
| Aggregation.GroupMin | src/pyfaf/queries/report.py:310-316 | the grouped minima have a key exactly for the groups that have a row |
| Aggregation.GroupMinIsMin | src/pyfaf/queries/report.py:310-316 | each group's minimum is no larger than any of its values, and is itself one of them |
| Aggregation.JoinCounts | src/pyfaf/queries/problem.py:52-57 | the join keeps exactly the entities whose key has an aggregate, each with that aggregate, and has no more rows than the entity table |
| Aggregation.Aggregate | src/pyfaf/queries/problem.py:41-57 | grouped sums joined back to the entity table: every row is an entity of the table, with at most as many rows as entities (sums and completeness: see `AggregateSound`, `AggregateComplete`) |
| Aggregation.PairsOfSum | src/pyfaf/queries/problem.py:41-50 | projecting the joined rows to (key, value) pairs keeps each group's sum and which groups are present |
| Aggregation.AggregateSound | src/pyfaf/queries/problem.py:41-57 | every aggregated row is an entity with surviving rows, carrying their sum |
| Aggregation.AggregateComplete | src/pyfaf/queries/problem.py:41-57 | every entity with a surviving row is aggregated, with their sum |
| Aggregation.JoinCountsUniqueKeys | src/pyfaf/queries/report.py:169-175 | joining a table with unique keys gives one row per key |
| Aggregation.SortKeepsUniqueKeys | src/pyfaf/queries/report.py:169-175 | ordering by count keeps one row per key |
| Aggregation.WhereWhere | src/pyfaf/queries/report.py:326-331 | two successive filters select the same rows in the same order as one filter on the conjunction |
| Storage.FindProblem | src/pyfaf/queries/problem.py:43 | the join finds a problem with the referenced id, or none exists |
| Storage.FindReport | src/pyfaf/queries/report.py:212 | the join finds a report with the referenced id, or none exists |
| Storage.FindComponent | src/pyfaf/queries/report.py:172 | the join finds a component with the referenced id, or none exists |
| ReportQueries.GetHistoryTarget | src/pyfaf/queries/report.py:77-91 | the token defaults to `daily`; `d`/`daily` select the daily table, `w`/`weekly` the weekly one and every other token the monthly one (both directions), and the date field is that table's own |
| ReportQueries.SpellingsAgree | src/pyfaf/queries/report.py:77-91 | the default token selects the daily table; short and long spellings give the same target; an unknown token gives the monthly target |
| ReportQueries.HistorySum | src/pyfaf/queries/report.py:60-74 | over the table the `history` token selects (daily by default), the sum is `NULL` exactly when no row is in the selected releases, and otherwise equals the row-by-row sum over them |
| ReportQueries.HistorySumAllReleases | src/pyfaf/queries/report.py:67-72 | with no release ids the sum runs over every row of the selected table |
| ReportQueries.ReportCountByComponent | src/pyfaf/queries/report.py:157-180 | over the table the `history` token selects (daily by default), the rows are in non-increasing count order |
| ReportQueries.ComponentOfRow | src/pyfaf/queries/report.py:172-178 | the row-to-component join; its meaning is stated by `ComponentOfRowJoins` |
| ReportQueries.ComponentOfRowJoins | src/pyfaf/queries/report.py:172-178 | with unique report ids, a history row counts for component `cid` exactly when its release is selected (any release when none are given), a stored report with the row's report id has component `cid`, and a component with id `cid` is stored |
| ReportQueries.ComponentCountIsSum | src/pyfaf/queries/report.py:169-178 | each row is a stored component with counted rows, and its count is the sum of the history counts of its reports in the selected releases |
| ReportQueries.ComponentWithRowsListed | src/pyfaf/queries/report.py:169-178 | every component with a counted history row is listed with that sum |
| ReportQueries.OneRowPerComponent | src/pyfaf/queries/report.py:174 | no component is listed twice |
| ReportQueries.ReportStatsByComponent | src/pyfaf/queries/report.py:198-221 | over the table the `history` token selects (daily by default), the rows are in non-increasing count order |
| ReportQueries.ReportOfComponentRow | src/pyfaf/queries/report.py:212-219 | the row-to-report join restricted to one component; its meaning is stated by `ReportOfComponentRowJoins` |
| ReportQueries.ReportOfComponentRowJoins | src/pyfaf/queries/report.py:212-219 | with unique report ids, a history row counts for report `rid` exactly when its release is selected, `rid` is the row's report id, that report is stored with the given component's id, and a component with that id is stored |
| ReportQueries.ReportStatsAreComponentSums | src/pyfaf/queries/report.py:210-219 | only reports of the given component are listed, each with the sum of its history counts in the selected releases |
| ReportQueries.ReportStatsComplete | src/pyfaf/queries/report.py:210-219 | every report of the component with a counted history row is listed with that sum |
| ReportQueries.OneRowPerReport | src/pyfaf/queries/report.py:215 | with unique report ids no report is listed twice, as `group_by(st.Report)` gives |
| ReportQueries.ReportsByType | src/pyfaf/queries/report.py:294-303 | exactly the reports of the type that meet the threshold (0 by default; a threshold of 0 or below is none) are returned |
| ReportQueries.UnassignedReports | src/pyfaf/queries/report.py:322-331 | only reports of the type without a problem and meeting the threshold are returned |
| ReportQueries.NoThresholdBelowOne | src/pyfaf/queries/report.py:294-331 | any threshold of 0 or below selects the same reports as the default threshold |
| ReportQueries.UnassignedAreReportsWithoutProblem | src/pyfaf/queries/report.py:322-331 | the unassigned reports are exactly the reports of the type and threshold that have no problem, in the same order |
| ReportQueries.FirstReportIds | src/pyfaf/queries/report.py:310-316 | `MIN(report.id) GROUP BY problem_id` over the reports of the type with a problem (properties: see `FirstIdIsLeast`, `FirstIdIsReport`) |
| ReportQueries.FirstIdIsLeast | src/pyfaf/queries/report.py:310-316 | a problem's minimal id is no larger than the id of any of its reports of the type |
| ReportQueries.FirstIdIsReport | src/pyfaf/queries/report.py:310-316 | a problem's minimal id is the id of one of its reports of the type |
| ReportQueries.ReportsForProblems | src/pyfaf/queries/report.py:305-320 | the reports whose id is the least id among some problem's reports of the type (see `ChosenReportIsFirst`, `EveryProblemHasChosenReport`, `OneReportPerProblem`) |
| ReportQueries.ChosenReportIsFirst | src/pyfaf/queries/report.py:305-320 | each chosen report is of the type, belongs to a problem, and has the least id among that problem's reports of the type |
| ReportQueries.EveryProblemHasChosenReport | src/pyfaf/queries/report.py:305-320 | every problem that has a report of the type gets a chosen report |
| ReportQueries.OneReportPerProblem | src/pyfaf/queries/report.py:305-320 | no two chosen reports belong to the same problem |
| ReportQueries.DetachLowCount | src/pyfaf/queries/report.py:333-343 | reports of the type below the threshold lose their problem; nothing else of any report changes |
| ReportQueries.DetachIdempotent | src/pyfaf/queries/report.py:333-343 | a second detach changes nothing |
| ReportQueries.DetachedNeverChosen | src/pyfaf/queries/report.py:305-343 | after the detach, every report chosen for a problem meets the threshold |
| ReportQueries.ReplaceSymbolSource | src/pyfaf/queries/report.py:411-423 | frames on the old symbol source move to the new one; other frames and all frame ids are unchanged |
| ReportQueries.ReplaceMovesReferences | src/pyfaf/queries/report.py:411-423 | afterwards no frame refers to the old source, and the new source has its own frames plus the moved ones |
| ReportQueries.Session.RemoveProblemFromLowCountReportsByType | src/pyfaf/queries/report.py:333-343 | the reports table becomes the detached table, the frames are untouched, and the result is the number of rows matched |
| ReportQueries.Session.UpdateFrameSymbolSource | src/pyfaf/queries/report.py:411-423 | the frames become the replaced frames, frame by frame; the reports are untouched |
| ProblemQueries.ProblemOfRow | src/pyfaf/queries/problem.py:41-44 | a history row joins to a stored problem only through a stored report with the row's report id whose problem id is that problem's id (the converse is `ProblemOfRowComplete`) |
| ProblemQueries.ProblemOfRowComplete | src/pyfaf/queries/problem.py:41-44 | with unique report and problem ids, a row whose stored report belongs to a stored problem joins to exactly that problem |
| ProblemQueries.RankedProblemOfRow | src/pyfaf/queries/problem.py:41-48 | a row is summed exactly when its release is in the release list, it joins to a problem and the row filter accepts it, and then under that problem's id |
| ProblemQueries.MatchingLinks | src/pyfaf/queries/problem.py:59-62 | a problem has a matching component link exactly when it is linked to a requested component |
| ProblemQueries.JoinLinksMembers | src/pyfaf/queries/problem.py:59-62 | the component join keeps exactly the tuples whose problem is linked to a requested component |
| ProblemQueries.JoinLinks | src/pyfaf/queries/problem.py:59-62 | the inner join with the problem-component links; with no requested component it is empty, as `IN ()` is (membership: see `JoinLinksMembers`) |
| ProblemQueries.ComponentJoin | src/pyfaf/queries/problem.py:59-62 | a tuple is kept exactly when no component ids are given or its problem is linked to a requested component |
| ProblemQueries.RankedTuples | src/pyfaf/queries/problem.py:41-64 | the tuples are in non-increasing count order |
| ProblemQueries.RankedTupleIsSum | src/pyfaf/queries/problem.py:41-64 | each tuple is a stored problem with a counted row, linked to a requested component when components are given, and its count is the sum of its counted rows (in the given releases, passing the filter) |
| ProblemQueries.RankedTupleComplete | src/pyfaf/queries/problem.py:41-64 | every stored problem with a counted row (and a requested component when components are given) is ranked, with that sum |
| ProblemQueries.NoReleasesNoProblems | src/pyfaf/queries/problem.py:45 | an empty release list gives an empty ranking |
| ProblemQueries.RankedOncePerProblem | src/pyfaf/queries/problem.py:50-56 | with unique problem ids and no component filter each problem is ranked once, as grouping by `Problem.id` and joining back on it gives |
| ProblemQueries.RankedCountsPositive | src/pyfaf/queries/problem.py:41-57 | when every history count is positive, every ranked count is positive |
| ProblemQueries.RankedUniform | src/pyfaf/queries/problem.py:52-62 | the tuples of one problem, duplicated by the component join, carry the same count |
| ProblemQueries.LastForUniform | src/pyfaf/queries/problem.py:69-70 | where a problem's tuples agree, the last write leaves each tuple's own value |
| ProblemQueries.AttachCounts | src/pyfaf/queries/problem.py:69-72 | every tuple's problem holds the count of its last tuple, the ranks of these problems are untouched, nothing else is written, and the problems are returned in tuple order |
| ProblemQueries.ObservedMonths | src/pyfaf/queries/problem.py:104-112 | the month count equals the closed form 12·(years apart) + (months apart) + 1, less 1 when the first month was incomplete |
| ProblemQueries.ObservedMonthsPositive | src/pyfaf/queries/problem.py:104-112 | a problem first seen no later than a first-of-month cutoff has at least one observed month |
| ProblemQueries.MonthlyAverage | src/pyfaf/queries/problem.py:114 | average times months is the count |
| ProblemQueries.LongtermOrder | src/pyfaf/queries/problem.py:119-120 | the order is a permutation, non-increasing in the `rank` each problem holds, and stable: tuples with equal rank keep their input order |
| ProblemQueries.LongtermOrderByAverage | src/pyfaf/queries/problem.py:114-120 | when a problem's tuples agree on the count, the order is by non-increasing monthly average |
| ProblemQueries.PrioritizeLongtermProblems | src/pyfaf/queries/problem.py:94-120 | fails with a division by zero exactly when some tuple has zero observed months; otherwise each problem's rank is its last tuple's average and the tuples come back in the long-term order; the counts of all these problems are untouched and no other object is written |
| ProblemQueries.UniformAverage | src/pyfaf/queries/problem.py:103-114 | tuples that agree on the count agree on the average |
| ProblemQueries.CountsWritten | src/pyfaf/queries/problem.py:69-70 | after the counts are written in any order of the tuples, each ranked problem holds its summed count |
| ProblemQueries.RanksWritten | src/pyfaf/queries/problem.py:103-114 | after the ranks are written, each problem holds its monthly average |
| ProblemQueries.QueryProblems | src/pyfaf/queries/problem.py:35-72 | with no row filter and no post-processing by default: fails only in the long-term post-processing with a zero month count, leaving every count unchanged; otherwise returns the problems of the ranked (or re-ordered) tuples, each problem's count being its summed count and, for the long-term ranking, its rank its monthly average; unranked problems keep count and rank, and without post-processing no rank changes |
| ProblemQueries.HotCutoff | src/pyfaf/queries/problem.py:82-83 | a given last date is used as is; the default is strictly before today |
| ProblemQueries.DefaultHotWindow | src/pyfaf/queries/problem.py:82-83 | the default cutoff exists exactly when today's day number exceeds 14, and is exactly 14 days earlier |
| ProblemQueries.HotFilter | src/pyfaf/queries/problem.py:91 | the `rank_filter_fn` of the hot ranking: keeps the rows whose bucket is on or after the cutoff (see `HotCutoffMonotone`) |
| ProblemQueries.HotCutoffMonotone | src/pyfaf/queries/problem.py:91 | a row counted under a later cutoff is counted, for the same problem, under an earlier one |
| ProblemQueries.QueryHotProblems | src/pyfaf/queries/problem.py:75-91 | with no components, no last date and the daily table by default: fails exactly when the default cutoff overflows, writing nothing; otherwise returns the problems ranked over the history table of the token with rows on or after the cutoff, each with its summed count, while unranked problems keep their count; no rank ever changes |
| ProblemQueries.SeenSince | src/pyfaf/queries/problem.py:147-152 | the subquery of the long-term filter: the problem has a report with a row in the history table and was last seen no earlier than the cutoff |
| ProblemQueries.LongtermFilter | src/pyfaf/queries/problem.py:140-152 | the `rank_filter_fn` of the long-term ranking: the three conditions of the query (see `LongtermEligible`) |
| ProblemQueries.LongtermEligible | src/pyfaf/queries/problem.py:140-152 | a joined row counts exactly when its problem was first seen no later than the cutoff and no later than the row's bucket, and last seen no earlier than the cutoff |
| ProblemQueries.LongtermMonthsPositive | src/pyfaf/queries/problem.py:129-154 | in a well-formed store every problem the long-term ranking keeps has at least one observed month, so the division is safe |
| ProblemQueries.QueryLongtermProblems | src/pyfaf/queries/problem.py:123-154 | with no components and the monthly table by default: fails exactly in January of year 1, when the cutoff overflows, writing nothing; otherwise returns the long-term order of the problems ranked under the long-term filter, each with its summed count and its monthly average as rank, while unranked problems keep count and rank |

## Left out

- The database session is not modelled: the ORM, the flush in `update_frame_ssource`, and `synchronize_session=False` in the bulk update. Queries are modelled by the rows they yield. Several report functions return a lazy query object, and the model returns its rows.
- `get_release_ids` in `src/pyfaf/queries/queries.py` is not part of this model. Release ids are given directly. For the report aggregates, `opsys_name=None` and `opsys_version=None` correspond to the default empty list, which restricts nothing; the ids of all releases would restrict only rows of releases that do not exist.
- `datetime.date.today()` becomes the parameter `today`. The methods that use it require a valid date, which the clock always returns.
- Floating point is modelled as real numbers: `rank / float(months)` is exact division. Rounding is not modelled.
- SQL's `SUM` is modelled on unbounded integers; database integer overflow is not modelled.
- The order of equal counts in SQL `ORDER BY ... DESC` is unspecified. The model fixes the stable order, and the contracts promise only non-increasing order. This does not apply to the long-term re-sort, which is Python's stable sort.
- Joins on foreign keys take the row whose primary key matches. Ids are assumed unique wherever a property depends on it, as a `requires` (`UniqueBy` with `ReportKey`, `ProblemKey` or `ComponentKey`).
- ReportQueries.ReportCountByComponent: its contract states only the order. Contents and uniqueness are proved in `ComponentCountIsSum`, `ComponentWithRowsListed` and `OneRowPerComponent`.
- ReportQueries.ReportStatsByComponent: its contract states only the order. Contents are proved in `ReportStatsAreComponentSums`, completeness in `ReportStatsComplete` and uniqueness in `OneRowPerReport`.
- ReportQueries.UnassignedReports: completeness is not stated on its own contract. It follows from `UnassignedAreReportsWithoutProblem` with `ReportsByType`.
- ProblemQueries.PrioritizeLongtermProblems: on failure, the ranks already written for earlier tuples are not stated, only that counts are untouched.
- ProblemQueries.RankedTuples: its contract states only the order. Contents, completeness and, without the component join, uniqueness are proved in `RankedTupleIsSum`, `RankedTupleComplete` and `RankedOncePerProblem`. With the component join only membership is stated, not how often a tuple is repeated (once per matching link).
- The other functions of `problem.py` and `report.py` are lookups and filters outside the ranking core and are not modelled. So are the other query modules (`arch.py`, `bugzilla.py`, `opsys.py`, `queries.py`, `user.py`), the fixture generator `randutils.py` and the web front end.
