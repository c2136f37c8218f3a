/**
 * The problem rankings of `pyfaf.queries.problem`: problems ordered by the
 * summed history counts of their reports, the "hot" ranking over a recent
 * window, and the "long-term" ranking by average count per observed month.
 */
module ProblemQueries {
  import opened Wrappers
  import opened Dates
  import opened Storage
  import opened Aggregation
  import opened Sorting
  import opened ReportQueries

  /** A `rank_filter_fn`: an extra `WHERE` on the joined (problem, history row) pairs. */
  type RowFilter = (Problem, HistoryRow) -> bool

  /** A `post_process_fn`: none, or the long-term prioritisation for a minimal first occurrence. */
  datatype PostProcess = NoPostProcess | Longterm(minFirstOccurrence: Date)

  /** `ZeroDivisionError` of the prioritisation, `OverflowError` of the date arithmetic. */
  datatype QueryError = ZeroMonths | DateOverflow

  // ---------------------------------------------------------------------
  // The rank query

  /** The problem a history row joins to through its report. */
  function ProblemOfRow(store: Store, h: HistoryRow): (r: Option<Problem>)
    ensures r.Some? ==> r.value in store.problems
    ensures r.Some? ==> exists x :: x in store.reports && x.id == h.reportId && x.problemId == Some(r.value.id)
  {
    match FindReport(store.reports, h.reportId)
    case None => None
    case Some(report) =>
      match report.problemId
      case None => None
      case Some(pid) => FindProblem(store.problems, pid)
  }

  /** Conversely, under unique keys a row whose stored report belongs to a stored problem joins to that problem. */
  lemma ProblemOfRowComplete(store: Store, h: HistoryRow, x: Report, p: Problem)
    requires UniqueBy(store.reports, ReportKey) && UniqueBy(store.problems, ProblemKey)
    requires x in store.reports && x.id == h.reportId && x.problemId == Some(p.id) && p in store.problems
    ensures ProblemOfRow(store, h) == Some(p)
  {
    var f := FindReport(store.reports, h.reportId);
    SameKeySame(store.reports, ReportKey, f.value, x);
    var g := FindProblem(store.problems, p.id);
    SameKeySame(store.problems, ProblemKey, g.value, p);
  }

  /**
   * The problem id a history row is summed under: rows outside the given
   * releases (an empty list selects none), rows that do not join to a
   * problem and rows the extra filter rejects are dropped.
   */
  function RankedProblemOfRow(store: Store, releaseIds: seq<int>, filter: RowFilter, h: HistoryRow): (r: Option<int>)
    ensures r.Some? <==> h.releaseId in releaseIds && ProblemOfRow(store, h).Some? && filter(ProblemOfRow(store, h).value, h)
    ensures r.Some? ==> r.value == ProblemOfRow(store, h).value.id
  {
    if h.releaseId !in releaseIds then None
    else match ProblemOfRow(store, h)
      case None => None
      case Some(p) => if filter(p, h) then Some(p.id) else None
  }

  function RankGroup(store: Store, releaseIds: seq<int>, filter: RowFilter): HistoryRow -> Option<int> {
    (h: HistoryRow) => RankedProblemOfRow(store, releaseIds, filter, h)
  }

  predicate HasLink(links: seq<ProblemComponent>, problemId: int, componentIds: seq<int>) {
    exists j :: 0 <= j < |links| && links[j].problemId == problemId && links[j].componentId in componentIds
  }

  function LinkMatches(problemId: int, componentIds: seq<int>): ProblemComponent -> bool {
    (l: ProblemComponent) => l.problemId == problemId && l.componentId in componentIds
  }

  /** The links of problem `problemId` to one of the requested components. */
  function MatchingLinks(links: seq<ProblemComponent>, problemId: int, componentIds: seq<int>): (r: seq<ProblemComponent>)
    ensures |r| > 0 <==> HasLink(links, problemId, componentIds)
  {
    var r := Where(links, LinkMatches(problemId, componentIds));
    assert |r| > 0 ==> HasLink(links, problemId, componentIds) by {
      if |r| > 0 {
        var j :| 0 <= j < |links| && links[j] == r[0];
      }
    }
    assert HasLink(links, problemId, componentIds) ==> |r| > 0 by {
      if HasLink(links, problemId, componentIds) {
        var j :| 0 <= j < |links| && links[j].problemId == problemId && links[j].componentId in componentIds;
        assert links[j] in r;
      }
    }
    r
  }

  /** An inner join with the problem-component links: each tuple once per matching link, in tuple order. */
  function JoinLinks(tuples: seq<Counted<Problem>>, links: seq<ProblemComponent>, componentIds: seq<int>): (r: seq<Counted<Problem>>)
    ensures |componentIds| == 0 ==> |r| == 0
  {
    if |tuples| == 0 then []
    else seq(|MatchingLinks(links, tuples[0].entity.id, componentIds)|, _ => tuples[0]) + JoinLinks(tuples[1..], links, componentIds)
  }

  /** The join keeps exactly the tuples whose problem is linked to a requested component. */
  lemma {:induction false} JoinLinksMembers(tuples: seq<Counted<Problem>>, links: seq<ProblemComponent>, componentIds: seq<int>, t: Counted<Problem>)
    ensures t in JoinLinks(tuples, links, componentIds) <==> t in tuples && HasLink(links, t.entity.id, componentIds)
  {
    if |tuples| > 0 {
      var head := seq(|MatchingLinks(links, tuples[0].entity.id, componentIds)|, _ => tuples[0]);
      var rest := JoinLinks(tuples[1..], links, componentIds);
      JoinLinksMembers(tuples[1..], links, componentIds, t);
      assert JoinLinks(tuples, links, componentIds) == head + rest;
      assert t in head <==> t == tuples[0] && HasLink(links, t.entity.id, componentIds) by {
        if t == tuples[0] && HasLink(links, t.entity.id, componentIds) {
          assert head[0] == t;
        }
      }
      assert tuples == [tuples[0]] + tuples[1..];
    }
  }

  /** The optional `JOIN problem_component ... WHERE component_id IN (...)`. */
  function ComponentJoin(tuples: seq<Counted<Problem>>, links: seq<ProblemComponent>, componentIds: Option<seq<int>>): (r: seq<Counted<Problem>>)
    ensures forall i :: 0 <= i < |r| ==>
      r[i] in tuples && (componentIds.None? || HasLink(links, r[i].entity.id, componentIds.value))
    ensures forall j :: 0 <= j < |tuples| && (componentIds.None? || HasLink(links, tuples[j].entity.id, componentIds.value)) ==>
      tuples[j] in r
  {
    match componentIds
    case None => tuples
    case Some(ids) =>
      var r := JoinLinks(tuples, links, ids);
      assert forall i :: 0 <= i < |r| ==> r[i] in tuples && HasLink(links, r[i].entity.id, ids) by {
        forall i | 0 <= i < |r| ensures r[i] in tuples && HasLink(links, r[i].entity.id, ids) {
          JoinLinksMembers(tuples, links, ids, r[i]);
        }
      }
      assert forall j :: 0 <= j < |tuples| && HasLink(links, tuples[j].entity.id, ids) ==> tuples[j] in r by {
        forall j | 0 <= j < |tuples| && HasLink(links, tuples[j].entity.id, ids) ensures tuples[j] in r {
          JoinLinksMembers(tuples, links, ids, tuples[j]);
        }
      }
      r
  }

  /**
   * The final query of `query_problems`: (problem, summed count) tuples,
   * restricted to the given components when there are any, largest count
   * first.  The `count` and `rank` columns of the source are the same value.
   */
  function RankedTuples(store: Store, table: HistoryTable, releaseIds: seq<int>, componentIds: Option<seq<int>>, filter: RowFilter): (r: seq<Counted<Problem>>)
    ensures NonIncreasing(r, CountKey)
  {
    var rows := store.Rows(table);
    var ranks := Aggregate(store.problems, ProblemKey, rows, RankGroup(store, releaseIds, filter), RowCount);
    SortDesc(ComponentJoin(ranks, store.problemComponents, componentIds), CountKey)
  }

  /** Each tuple is a stored problem with a counted row, linked to a requested component, and carries the sum of its counted rows. */
  lemma RankedTupleIsSum(store: Store, table: HistoryTable, releaseIds: seq<int>, componentIds: Option<seq<int>>, filter: RowFilter, i: int)
    requires 0 <= i < |RankedTuples(store, table, releaseIds, componentIds, filter)|
    ensures var t := RankedTuples(store, table, releaseIds, componentIds, filter)[i];
      && t.entity in store.problems
      && InGroup(store.Rows(table), RankGroup(store, releaseIds, filter), t.entity.id)
      && t.count == RowSum(store.Rows(table), RankGroup(store, releaseIds, filter), RowCount, t.entity.id)
      && (componentIds.Some? ==> HasLink(store.problemComponents, t.entity.id, componentIds.value))
  {
    var rows := store.Rows(table);
    var group := RankGroup(store, releaseIds, filter);
    var ranks := Aggregate(store.problems, ProblemKey, rows, group, RowCount);
    var joined := ComponentJoin(ranks, store.problemComponents, componentIds);
    var t := RankedTuples(store, table, releaseIds, componentIds, filter)[i];
    assert t in multiset(joined);
    if componentIds.Some? {
      JoinLinksMembers(ranks, store.problemComponents, componentIds.value, t);
    }
    assert t in ranks;
    AggregateSound(store.problems, ProblemKey, rows, group, RowCount, t);
  }

  /** Every stored problem with a counted row (and a requested component) is ranked, with its sum. */
  lemma RankedTupleComplete(store: Store, table: HistoryTable, releaseIds: seq<int>, componentIds: Option<seq<int>>, filter: RowFilter, j: int)
    requires 0 <= j < |store.problems|
    requires InGroup(store.Rows(table), RankGroup(store, releaseIds, filter), store.problems[j].id)
    requires componentIds.Some? ==> HasLink(store.problemComponents, store.problems[j].id, componentIds.value)
    ensures Counted(store.problems[j], RowSum(store.Rows(table), RankGroup(store, releaseIds, filter), RowCount, store.problems[j].id))
      in RankedTuples(store, table, releaseIds, componentIds, filter)
  {
    var rows := store.Rows(table);
    var group := RankGroup(store, releaseIds, filter);
    AggregateComplete(store.problems, ProblemKey, rows, group, RowCount, j);
    var ranks := Aggregate(store.problems, ProblemKey, rows, group, RowCount);
    var t := Counted(store.problems[j], RowSum(rows, group, RowCount, store.problems[j].id));
    var k :| 0 <= k < |ranks| && ranks[k] == t;
    var joined := ComponentJoin(ranks, store.problemComponents, componentIds);
    if componentIds.Some? {
      JoinLinksMembers(ranks, store.problemComponents, componentIds.value, t);
    }
    assert t in joined;
    assert t in multiset(joined);
  }

  /** No release ids, no problems: the `IN ()` of the rank query matches nothing. */
  lemma NoReleasesNoProblems(store: Store, table: HistoryTable, componentIds: Option<seq<int>>, filter: RowFilter)
    ensures RankedTuples(store, table, [], componentIds, filter) == []
  {
    var r := RankedTuples(store, table, [], componentIds, filter);
    if |r| > 0 {
      RankedTupleIsSum(store, table, [], componentIds, filter, 0);
      assert false;
    }
  }

  /** Without the component join, each problem is ranked once: the query groups by the problem id and joins back on it. */
  lemma RankedOncePerProblem(store: Store, table: HistoryTable, releaseIds: seq<int>, filter: RowFilter)
    requires UniqueBy(store.problems, ProblemKey)
    ensures UniqueBy(RankedTuples(store, table, releaseIds, None, filter), EntityKey(ProblemKey))
  {
    var m := GroupSum(PairsOf(store.Rows(table), RankGroup(store, releaseIds, filter), RowCount));
    JoinCountsUniqueKeys(store.problems, ProblemKey, m);
    SortKeepsUniqueKeys(JoinCounts(store.problems, ProblemKey, m), EntityKey(ProblemKey), CountKey);
  }

  /** Every per-problem count picked out of the history is positive. */
  predicate PairValuesPositive(pairs: seq<Pair>) {
    forall i :: 0 <= i < |pairs| ==> pairs[i].value > 0
  }

  /** When every history count is positive, so is every ranked count. */
  lemma RankedCountsPositive(store: Store, table: HistoryTable, releaseIds: seq<int>, componentIds: Option<seq<int>>, filter: RowFilter)
    requires forall k :: 0 <= k < |store.Rows(table)| ==> store.Rows(table)[k].count > 0
    ensures forall t :: t in RankedTuples(store, table, releaseIds, componentIds, filter) ==> t.count > 0
  {
    var rows := store.Rows(table);
    var group := RankGroup(store, releaseIds, filter);
    var pairs := PairsOf(rows, group, RowCount);
    assert PairValuesPositive(pairs) by {
      forall i | 0 <= i < |pairs| ensures pairs[i].value > 0 {
        PairsOfMember(rows, group, RowCount, pairs[i]);
      }
    }
    var r := RankedTuples(store, table, releaseIds, componentIds, filter);
    forall t | t in r ensures t.count > 0 {
      var i :| 0 <= i < |r| && r[i] == t;
      RankedTupleIsSum(store, table, releaseIds, componentIds, filter, i);
      PairsOfSum(rows, group, RowCount, t.entity.id);
      SumForPositive(pairs, t.entity.id);
    }
  }

  // ---------------------------------------------------------------------
  // Writing the results onto the problem objects

  /** The problems of the tuples, in order: `[x[0] for x in problem_tuples]`. */
  function ProblemsOf(tuples: seq<Counted<Problem>>): seq<Problem> {
    seq(|tuples|, i requires 0 <= i < |tuples| => tuples[i].entity)
  }

  function Entities(tuples: seq<Counted<Problem>>): set<Problem> {
    set i | 0 <= i < |tuples| :: tuples[i].entity
  }

  /** The value the last tuple of `p` gives: what an attribute of `p` holds after a loop writes it for every tuple. */
  function LastFor<V>(tuples: seq<Counted<Problem>>, p: Problem, value: Counted<Problem> -> V, default: V): V {
    if |tuples| == 0 then default
    else if tuples[|tuples| - 1].entity == p then value(tuples[|tuples| - 1])
    else LastFor(tuples[..|tuples| - 1], p, value, default)
  }

  /** All tuples of one problem agree on `value`. */
  ghost predicate Uniform<V>(tuples: seq<Counted<Problem>>, value: Counted<Problem> -> V) {
    forall i, j :: 0 <= i < |tuples| && 0 <= j < |tuples| && tuples[i].entity == tuples[j].entity ==> value(tuples[i]) == value(tuples[j])
  }

  /** Where the tuples of a problem agree, the last write leaves each tuple's own value. */
  lemma {:induction false} LastForUniform<V>(tuples: seq<Counted<Problem>>, value: Counted<Problem> -> V, default: V, i: int)
    requires Uniform(tuples, value) && 0 <= i < |tuples|
    ensures LastFor(tuples, tuples[i].entity, value, default) == value(tuples[i])
  {
    var n := |tuples| - 1;
    if tuples[n].entity != tuples[i].entity {
      var init := tuples[..n];
      assert init[i] == tuples[i];
      assert Uniform(init, value) by {
        forall a, b | 0 <= a < |init| && 0 <= b < |init| && init[a].entity == init[b].entity ensures value(init[a]) == value(init[b]) {
          assert init[a] == tuples[a] && init[b] == tuples[b];
        }
      }
      LastForUniform(init, value, default, i);
    }
  }

  /** Reordering keeps the tuples of each problem in agreement. */
  lemma UniformPermutation<V>(a: seq<Counted<Problem>>, b: seq<Counted<Problem>>, value: Counted<Problem> -> V)
    requires multiset(a) == multiset(b) && Uniform(a, value)
    ensures Uniform(b, value)
  {
    forall i, j | 0 <= i < |b| && 0 <= j < |b| && b[i].entity == b[j].entity ensures value(b[i]) == value(b[j]) {
      assert b[i] in multiset(a) && b[j] in multiset(a);
      var x :| 0 <= x < |a| && a[x] == b[i];
      var y :| 0 <= y < |a| && a[y] == b[j];
    }
  }

  function CountOf(t: Counted<Problem>): int {
    t.count
  }

  /** The tuples of one problem carry the same count: the count is a function of the problem. */
  lemma RankedUniform(store: Store, table: HistoryTable, releaseIds: seq<int>, componentIds: Option<seq<int>>, filter: RowFilter)
    ensures Uniform(RankedTuples(store, table, releaseIds, componentIds, filter), CountOf)
  {
    var r := RankedTuples(store, table, releaseIds, componentIds, filter);
    forall i, j | 0 <= i < |r| && 0 <= j < |r| && r[i].entity == r[j].entity ensures CountOf(r[i]) == CountOf(r[j]) {
      RankedTupleIsSum(store, table, releaseIds, componentIds, filter, i);
      RankedTupleIsSum(store, table, releaseIds, componentIds, filter, j);
    }
  }

  /** `problem.count = count` for every tuple; returns the problems in tuple order. */
  method AttachCounts(tuples: seq<Counted<Problem>>) returns (problems: seq<Problem>)
    modifies Entities(tuples)
    ensures problems == ProblemsOf(tuples)
    ensures forall i :: 0 <= i < |tuples| ==> tuples[i].entity.count == LastFor(tuples, tuples[i].entity, CountOf, 0)
    ensures forall p :: p in Entities(tuples) ==> p.rank == old(p.rank)
  {
    var i := 0;
    while i < |tuples|
      invariant 0 <= i <= |tuples|
      invariant forall j :: 0 <= j < i ==> tuples[j].entity.count == LastFor(tuples[..i], tuples[j].entity, CountOf, 0)
      invariant forall p :: p in Entities(tuples) ==> p.rank == old(p.rank)
    {
      var p := tuples[i].entity;
      p.count := tuples[i].count;
      assert tuples[..i + 1][..i] == tuples[..i];
      i := i + 1;
    }
    assert tuples[..|tuples|] == tuples;
    problems := ProblemsOf(tuples);
  }

  // ---------------------------------------------------------------------
  // Long-term prioritisation

  /**
   * The number of months from `firstOccurrence` to `minFirstOccurrence`,
   * both months included, less one when the first month was incomplete.
   */
  function ObservedMonths(minFirstOccurrence: Date, firstOccurrence: Date): (months: int)
    ensures months == 12 * (minFirstOccurrence.year - firstOccurrence.year)
      + (minFirstOccurrence.month - firstOccurrence.month) + 1
      - (if firstOccurrence.day != 1 then 1 else 0)
  {
    var months :=
      if minFirstOccurrence.year != firstOccurrence.year then
        minFirstOccurrence.month + 12 * (minFirstOccurrence.year - firstOccurrence.year - 1) + (13 - firstOccurrence.month)
      else
        (minFirstOccurrence.month - firstOccurrence.month) + 1;
    if firstOccurrence.day != 1 then months - 1 else months
  }

  /** A problem first seen no later than a first-of-month cutoff has been observed for at least one month. */
  lemma ObservedMonthsPositive(minFirstOccurrence: Date, firstOccurrence: Date)
    requires Valid(firstOccurrence) && Valid(minFirstOccurrence) && minFirstOccurrence.day == 1
    requires Le(firstOccurrence, minFirstOccurrence)
    ensures ObservedMonths(minFirstOccurrence, firstOccurrence) >= 1
  {
    var months := ObservedMonths(minFirstOccurrence, firstOccurrence);
    if firstOccurrence.year < minFirstOccurrence.year {
      assert 12 * (minFirstOccurrence.year - firstOccurrence.year) >= 12;
    } else if firstOccurrence.month == minFirstOccurrence.month {
      assert firstOccurrence.day == 1;
    }
  }

  function MonthsOf(minFirstOccurrence: Date, t: Counted<Problem>): int {
    ObservedMonths(minFirstOccurrence, t.entity.firstOccurrence)
  }

  /** `rank / float(months)`; where `months` is zero Python raises, and the prioritisation fails before using it. */
  function MonthlyAverage(minFirstOccurrence: Date, t: Counted<Problem>): (avg: real)
    ensures MonthsOf(minFirstOccurrence, t) != 0 ==> avg * MonthsOf(minFirstOccurrence, t) as real == t.count as real
  {
    var months := MonthsOf(minFirstOccurrence, t);
    if months == 0 then 0.0 else t.count as real / months as real
  }

  function AverageOf(minFirstOccurrence: Date): Counted<Problem> -> real {
    (t: Counted<Problem>) => MonthlyAverage(minFirstOccurrence, t)
  }

  /** The sort key of the prioritisation: the `rank` attribute each problem holds after the loop. */
  function RankKey(minFirstOccurrence: Date, tuples: seq<Counted<Problem>>): Counted<Problem> -> real {
    (t: Counted<Problem>) => LastFor(tuples, t.entity, AverageOf(minFirstOccurrence), 0.0)
  }

  /** The order `prioritize_longterm_problems` returns. */
  function LongtermOrder(minFirstOccurrence: Date, tuples: seq<Counted<Problem>>): (r: seq<Counted<Problem>>)
    ensures multiset(r) == multiset(tuples)
    ensures NonIncreasing(r, RankKey(minFirstOccurrence, tuples))
    ensures forall k :: WithKey(r, RankKey(minFirstOccurrence, tuples), k) == WithKey(tuples, RankKey(minFirstOccurrence, tuples), k)
  {
    SortDesc(tuples, RankKey(minFirstOccurrence, tuples))
  }

  /** When a problem's tuples agree on the count, the long-term order is by non-increasing monthly average. */
  lemma LongtermOrderByAverage(minFirstOccurrence: Date, tuples: seq<Counted<Problem>>)
    requires Uniform(tuples, CountOf)
    ensures var r := LongtermOrder(minFirstOccurrence, tuples);
      forall i, j :: 0 <= i < j < |r| ==> MonthlyAverage(minFirstOccurrence, r[i]) >= MonthlyAverage(minFirstOccurrence, r[j])
  {
    var avg := AverageOf(minFirstOccurrence);
    var r := LongtermOrder(minFirstOccurrence, tuples);
    UniformAverage(minFirstOccurrence, tuples);
    forall i, j | 0 <= i < j < |r| ensures MonthlyAverage(minFirstOccurrence, r[i]) >= MonthlyAverage(minFirstOccurrence, r[j]) {
      assert r[i] in multiset(tuples) && r[j] in multiset(tuples);
      var x :| 0 <= x < |tuples| && tuples[x] == r[i];
      var y :| 0 <= y < |tuples| && tuples[y] == r[j];
      LastForUniform(tuples, avg, 0.0, x);
      LastForUniform(tuples, avg, 0.0, y);
    }
  }

  /**
   * `prioritize_longterm_problems`: writes each problem's monthly average
   * into its `rank`, failing at the first tuple observed for zero months,
   * then orders the tuples by `rank`, largest first, stably.
   */
  method PrioritizeLongtermProblems(minFirstOccurrence: Date, tuples: seq<Counted<Problem>>) returns (r: Result<seq<Counted<Problem>>, QueryError>)
    modifies Entities(tuples)
    ensures r.Failure? <==> exists i :: 0 <= i < |tuples| && MonthsOf(minFirstOccurrence, tuples[i]) == 0
    ensures r.Failure? ==> r.error == ZeroMonths
    ensures r.Success? ==> r.value == LongtermOrder(minFirstOccurrence, tuples)
    ensures r.Success? ==> forall i :: 0 <= i < |tuples| ==>
      tuples[i].entity.rank == LastFor(tuples, tuples[i].entity, AverageOf(minFirstOccurrence), 0.0)
    ensures forall p :: p in Entities(tuples) ==> p.count == old(p.count)
  {
    var i := 0;
    while i < |tuples|
      invariant 0 <= i <= |tuples|
      invariant forall j :: 0 <= j < i ==> MonthsOf(minFirstOccurrence, tuples[j]) != 0
      invariant forall j :: 0 <= j < i ==> tuples[j].entity.rank == LastFor(tuples[..i], tuples[j].entity, AverageOf(minFirstOccurrence), 0.0)
      invariant forall p :: p in Entities(tuples) ==> p.count == old(p.count)
    {
      var p := tuples[i].entity;
      var months := ObservedMonths(minFirstOccurrence, p.firstOccurrence);
      if months == 0 {
        return Failure(ZeroMonths);
      }
      p.rank := tuples[i].count as real / months as real;
      assert tuples[..i + 1][..i] == tuples[..i];
      i := i + 1;
    }
    assert tuples[..|tuples|] == tuples;
    r := Success(LongtermOrder(minFirstOccurrence, tuples));
  }

  // ---------------------------------------------------------------------
  // query_problems and its two callers

  /** The tuples `query_problems` returns the problems of, before the post-processing can fail. */
  function Ordered(post: PostProcess, ranked: seq<Counted<Problem>>): seq<Counted<Problem>> {
    match post
    case NoPostProcess => ranked
    case Longterm(minFirstOccurrence) => LongtermOrder(minFirstOccurrence, ranked)
  }

  /** Every ranked problem is a stored problem object. */
  lemma RankedInStore(store: Store, table: HistoryTable, releaseIds: seq<int>, componentIds: Option<seq<int>>, filter: RowFilter)
    ensures Entities(RankedTuples(store, table, releaseIds, componentIds, filter)) <= store.ProblemObjects()
  {
    var ranked := RankedTuples(store, table, releaseIds, componentIds, filter);
    forall p | p in Entities(ranked) ensures p in store.ProblemObjects() {
      var i :| 0 <= i < |ranked| && ranked[i].entity == p;
      RankedTupleIsSum(store, table, releaseIds, componentIds, filter, i);
    }
  }

  lemma PermutedEntities(a: seq<Counted<Problem>>, b: seq<Counted<Problem>>)
    requires multiset(a) == multiset(b)
    ensures Entities(a) == Entities(b)
  {
    forall p | p in Entities(a) ensures p in Entities(b) {
      var i :| 0 <= i < |a| && a[i].entity == p;
      assert a[i] in multiset(b);
      var j :| 0 <= j < |b| && b[j] == a[i];
    }
    forall p | p in Entities(b) ensures p in Entities(a) {
      var i :| 0 <= i < |b| && b[i].entity == p;
      assert b[i] in multiset(a);
      var j :| 0 <= j < |a| && a[j] == b[i];
    }
  }

  /** Agreeing counts mean agreeing monthly averages. */
  lemma UniformAverage(minFirstOccurrence: Date, tuples: seq<Counted<Problem>>)
    requires Uniform(tuples, CountOf)
    ensures Uniform(tuples, AverageOf(minFirstOccurrence))
  {
    var avg := AverageOf(minFirstOccurrence);
    forall a, b | 0 <= a < |tuples| && 0 <= b < |tuples| && tuples[a].entity == tuples[b].entity ensures avg(tuples[a]) == avg(tuples[b]) {
      assert CountOf(tuples[a]) == CountOf(tuples[b]);
    }
  }

  /** Every ranked problem holds its tuple's count. */
  predicate CountsAttached(tuples: seq<Counted<Problem>>)
    reads Entities(tuples)
  {
    forall i :: 0 <= i < |tuples| ==> tuples[i].entity.count == tuples[i].count
  }

  /** Every ranked problem holds its tuple's monthly average as its rank. */
  predicate RanksAveraged(minFirstOccurrence: Date, tuples: seq<Counted<Problem>>)
    reads Entities(tuples)
  {
    forall i :: 0 <= i < |tuples| ==> tuples[i].entity.rank == MonthlyAverage(minFirstOccurrence, tuples[i])
  }

  /** After the counts are written in the order of `final`, each problem of `ranked` holds its tuple's count. */
  lemma CountsWritten(final: seq<Counted<Problem>>, ranked: seq<Counted<Problem>>)
    requires multiset(final) == multiset(ranked) && Uniform(final, CountOf)
    requires forall j :: 0 <= j < |final| ==> final[j].entity.count == LastFor(final, final[j].entity, CountOf, 0)
    ensures CountsAttached(ranked)
  {
    forall i | 0 <= i < |ranked| ensures ranked[i].entity.count == ranked[i].count {
      assert ranked[i] in multiset(final);
      var j :| 0 <= j < |final| && final[j] == ranked[i];
      LastForUniform(final, CountOf, 0, j);
    }
  }

  /** After the ranks are written, each problem holds its tuple's monthly average. */
  lemma RanksWritten(minFirstOccurrence: Date, ranked: seq<Counted<Problem>>)
    requires Uniform(ranked, CountOf)
    requires forall i :: 0 <= i < |ranked| ==> ranked[i].entity.rank == LastFor(ranked, ranked[i].entity, AverageOf(minFirstOccurrence), 0.0)
    ensures RanksAveraged(minFirstOccurrence, ranked)
  {
    UniformAverage(minFirstOccurrence, ranked);
    forall i | 0 <= i < |ranked| ensures ranked[i].entity.rank == MonthlyAverage(minFirstOccurrence, ranked[i]) {
      LastForUniform(ranked, AverageOf(minFirstOccurrence), 0.0, i);
    }
  }

  /** A missing `rank_filter_fn`: every row is kept. */
  function EveryRow(): RowFilter {
    (p: Problem, h: HistoryRow) => true
  }

  /**
   * `query_problems`: ranks the problems, post-processes the tuples, sets
   * each problem's `count` to its summed history count and returns the
   * problems in order.
   */
  method QueryProblems(store: Store, table: HistoryTable, releaseIds: seq<int>, componentIds: Option<seq<int>>,
                       filter: RowFilter := EveryRow(), post: PostProcess := NoPostProcess)
    returns (r: Result<seq<Problem>, QueryError>)
    modifies store.ProblemObjects()
    ensures var ranked := RankedTuples(store, table, releaseIds, componentIds, filter);
      forall p :: p in store.ProblemObjects() && p !in Entities(ranked) ==> p.count == old(p.count) && p.rank == old(p.rank)
    ensures post.NoPostProcess? ==> forall p :: p in store.ProblemObjects() ==> p.rank == old(p.rank)
    ensures r.Failure? ==> forall p :: p in store.ProblemObjects() ==> p.count == old(p.count)
    ensures var ranked := RankedTuples(store, table, releaseIds, componentIds, filter);
      r.Failure? <==> post.Longterm? && (exists i :: 0 <= i < |ranked| && MonthsOf(post.minFirstOccurrence, ranked[i]) == 0)
    ensures r.Failure? ==> r.error == ZeroMonths
    ensures var ranked := RankedTuples(store, table, releaseIds, componentIds, filter);
      r.Success? ==>
        && r.value == ProblemsOf(Ordered(post, ranked))
        && CountsAttached(ranked)
        && (post.Longterm? ==> RanksAveraged(post.minFirstOccurrence, ranked))
  {
    var ranked := RankedTuples(store, table, releaseIds, componentIds, filter);
    RankedUniform(store, table, releaseIds, componentIds, filter);
    RankedInStore(store, table, releaseIds, componentIds, filter);
    var final := ranked;
    if post.Longterm? {
      var prioritized := PrioritizeLongtermProblems(post.minFirstOccurrence, ranked);
      if prioritized.Failure? {
        return Failure(prioritized.error);
      }
      final := prioritized.value;
      RanksWritten(post.minFirstOccurrence, ranked);
    }
    assert final == Ordered(post, ranked);
    PermutedEntities(final, ranked);
    UniformPermutation(ranked, final, CountOf);
    var problems := AttachCounts(final);
    CountsWritten(final, ranked);
    r := Success(problems);
  }

  /** `last_date`, or two weeks before today; `None` where Python's date subtraction overflows. */
  function HotCutoff(lastDate: Option<Date>, today: Date): (r: Option<Date>)
    requires Valid(today)
    ensures lastDate.Some? ==> r == lastDate
    ensures lastDate.None? && r.Some? ==> Lt(r.value, today)
  {
    match lastDate
    case Some(d) => Some(d)
    case None => MinusDays(today, 14)
  }

  /** The default window starts exactly fourteen days ago, and exists unless today is within the first fourteen days of year 1. */
  lemma DefaultHotWindow(today: Date)
    requires Valid(today)
    ensures HotCutoff(None, today).Some? <==> Ordinal(today) > 14
    ensures HotCutoff(None, today).Some? ==> Ordinal(HotCutoff(None, today).value) == Ordinal(today) - 14
  {
    MinusDaysOrdinal(today, 14);
  }

  /** `hist_field >= last_date`. */
  function HotFilter(cutoff: Date): RowFilter {
    (p: Problem, h: HistoryRow) => Le(cutoff, h.date)
  }

  /** A later cutoff counts a subset of the rows an earlier one counts. */
  lemma HotCutoffMonotone(store: Store, releaseIds: seq<int>, early: Date, late: Date, h: HistoryRow)
    requires Le(early, late)
    requires RankedProblemOfRow(store, releaseIds, HotFilter(late), h).Some?
    ensures RankedProblemOfRow(store, releaseIds, HotFilter(early), h) == RankedProblemOfRow(store, releaseIds, HotFilter(late), h)
  {
    LeTransitive(early, late, h.date);
  }

  /** `query_hot_problems`; `today` stands for `datetime.date.today()`. */
  method QueryHotProblems(store: Store, today: Date, releaseIds: seq<int>, componentIds: Option<seq<int>> := None,
                          lastDate: Option<Date> := None, history: string := "daily") returns (r: Result<seq<Problem>, QueryError>)
    requires Valid(today)
    modifies store.ProblemObjects()
    ensures r.Failure? <==> HotCutoff(lastDate, today).None?
    ensures r.Failure? ==> r.error == DateOverflow
    ensures r.Success? ==> var cutoff := HotCutoff(lastDate, today).value;
      var ranked := RankedTuples(store, GetHistoryTarget(history).table, releaseIds, componentIds, HotFilter(cutoff));
      && r.value == ProblemsOf(ranked)
      && CountsAttached(ranked)
      && (forall p :: p in store.ProblemObjects() && p !in Entities(ranked) ==> p.count == old(p.count))
    ensures r.Failure? ==> forall p :: p in store.ProblemObjects() ==> p.count == old(p.count)
    ensures forall p :: p in store.ProblemObjects() ==> p.rank == old(p.rank)
  {
    var cutoff := HotCutoff(lastDate, today);
    if cutoff.None? {
      return Failure(DateOverflow);
    }
    var target := GetHistoryTarget(history);
    r := QueryProblems(store, target.table, releaseIds, componentIds, HotFilter(cutoff.value));
  }

  /**
   * The subquery of the long-term filter: the problem has a report with a
   * row in the history table (any release) and was last seen no earlier
   * than `minFirstOccurrence`.
   */
  predicate SeenSince(store: Store, table: HistoryTable, minFirstOccurrence: Date, id: int) {
    exists k :: 0 <= k < |store.Rows(table)| &&
      match ProblemOfRow(store, store.Rows(table)[k])
      case None => false
      case Some(q) => q.id == id && Le(minFirstOccurrence, q.lastOccurrence)
  }

  /** The `rank_filter_fn` of `query_longterm_problems`. */
  function LongtermFilter(store: Store, table: HistoryTable, minFirstOccurrence: Date): RowFilter {
    (p: Problem, h: HistoryRow) =>
      && Le(p.firstOccurrence, minFirstOccurrence)
      && Le(p.firstOccurrence, h.date)
      && SeenSince(store, table, minFirstOccurrence, p.id)
  }

  /**
   * A joined row counts for the long-term ranking exactly when its problem
   * was first seen no later than the cutoff and no later than the row's
   * bucket, and last seen no earlier than the cutoff.
   */
  lemma LongtermEligible(store: Store, table: HistoryTable, releaseIds: seq<int>, minFirstOccurrence: Date, k: int)
    requires UniqueBy(store.problems, ProblemKey)
    requires 0 <= k < |store.Rows(table)|
    requires store.Rows(table)[k].releaseId in releaseIds && ProblemOfRow(store, store.Rows(table)[k]).Some?
    ensures var h := store.Rows(table)[k];
      var p := ProblemOfRow(store, h).value;
      (RankedProblemOfRow(store, releaseIds, LongtermFilter(store, table, minFirstOccurrence), h) == Some(p.id)) <==>
      (Le(p.firstOccurrence, minFirstOccurrence) && Le(p.firstOccurrence, h.date) && Le(minFirstOccurrence, p.lastOccurrence))
  {
    var h := store.Rows(table)[k];
    var p := ProblemOfRow(store, h).value;
    if SeenSince(store, table, minFirstOccurrence, p.id) {
      var n :| 0 <= n < |store.Rows(table)| && match ProblemOfRow(store, store.Rows(table)[n])
        case None => false
        case Some(q) => q.id == p.id && Le(minFirstOccurrence, q.lastOccurrence);
      var q := ProblemOfRow(store, store.Rows(table)[n]).value;
      SameKeySame(store.problems, ProblemKey, p, q);
    }
  }

  /** In a well-formed store every problem the long-term ranking keeps has been observed for at least one month. */
  lemma LongtermMonthsPositive(store: Store, table: HistoryTable, releaseIds: seq<int>, componentIds: Option<seq<int>>, minFirstOccurrence: Date)
    requires WellFormed(store) && Valid(minFirstOccurrence) && minFirstOccurrence.day == 1
    ensures var ranked := RankedTuples(store, table, releaseIds, componentIds, LongtermFilter(store, table, minFirstOccurrence));
      forall i :: 0 <= i < |ranked| ==> MonthsOf(minFirstOccurrence, ranked[i]) >= 1
  {
    var filter := LongtermFilter(store, table, minFirstOccurrence);
    var ranked := RankedTuples(store, table, releaseIds, componentIds, filter);
    forall i | 0 <= i < |ranked| ensures MonthsOf(minFirstOccurrence, ranked[i]) >= 1 {
      RankedTupleIsSum(store, table, releaseIds, componentIds, filter, i);
      var rows := store.Rows(table);
      var k :| 0 <= k < |rows| && RankGroup(store, releaseIds, filter)(rows[k]) == Some(ranked[i].entity.id);
      LongtermRowMonths(store, minFirstOccurrence, filter, releaseIds, rows[k], ranked[i].entity);
    }
  }

  /** The problem a row is counted for under the long-term filter has been observed for at least one month. */
  lemma LongtermRowMonths(store: Store, minFirstOccurrence: Date, filter: RowFilter, releaseIds: seq<int>, h: HistoryRow, q: Problem)
    requires WellFormed(store) && Valid(minFirstOccurrence) && minFirstOccurrence.day == 1
    requires forall p: Problem, g: HistoryRow :: filter(p, g) ==> Le(p.firstOccurrence, minFirstOccurrence)
    requires q in store.problems && RankedProblemOfRow(store, releaseIds, filter, h) == Some(q.id)
    ensures ObservedMonths(minFirstOccurrence, q.firstOccurrence) >= 1
  {
    var p := ProblemOfRow(store, h).value;
    SameKeySame(store.problems, ProblemKey, p, q);
    ObservedMonthsPositive(minFirstOccurrence, q.firstOccurrence);
  }

  /**
   * `query_longterm_problems`: problems first seen no later than the first
   * day of last month, ordered by average count per observed month.
   */
  method QueryLongtermProblems(store: Store, today: Date, releaseIds: seq<int>, componentIds: Option<seq<int>> := None,
                               history: string := "monthly") returns (r: Result<seq<Problem>, QueryError>)
    requires Valid(today) && WellFormed(store)
    modifies store.ProblemObjects()
    ensures r.Failure? <==> today.year == MinYear && today.month == 1
    ensures r.Failure? ==> r.error == DateOverflow
    ensures r.Success? ==> var minFirstOccurrence := MinFirstOccurrence(today).value;
      var table := GetHistoryTarget(history).table;
      var ranked := RankedTuples(store, table, releaseIds, componentIds, LongtermFilter(store, table, minFirstOccurrence));
      && r.value == ProblemsOf(LongtermOrder(minFirstOccurrence, ranked))
      && CountsAttached(ranked) && RanksAveraged(minFirstOccurrence, ranked)
      && (forall p :: p in store.ProblemObjects() && p !in Entities(ranked) ==> p.count == old(p.count) && p.rank == old(p.rank))
    ensures r.Failure? ==> forall p :: p in store.ProblemObjects() ==> p.count == old(p.count) && p.rank == old(p.rank)
  {
    var minFirstOccurrence := MinFirstOccurrence(today);
    if minFirstOccurrence.None? {
      return Failure(DateOverflow);
    }
    var table := GetHistoryTarget(history).table;
    var filter := LongtermFilter(store, table, minFirstOccurrence.value);
    LongtermMonthsPositive(store, table, releaseIds, componentIds, minFirstOccurrence.value);
    r := QueryProblems(store, table, releaseIds, componentIds, filter, Longterm(minFirstOccurrence.value));
  }
}
