/**
 * The tables the queries read, as in-memory rows.  A `Problem` is an ORM
 * object: its identity and dates are fixed columns, and the ranking queries
 * write the transient attributes `count` and `rank` onto it in place.
 * Every other entity is a plain row value.
 */
module Storage {
  import opened Wrappers
  import opened Dates
  import opened Aggregation

  class Problem {
    const id: int
    const firstOccurrence: Date
    const lastOccurrence: Date
    /** Set by the ranking queries: the summed history count. */
    var count: int
    /** Set by the long-term ranking: the average count per month. */
    var rank: real

    constructor (id: int, firstOccurrence: Date, lastOccurrence: Date)
      ensures this.id == id && this.firstOccurrence == firstOccurrence && this.lastOccurrence == lastOccurrence
      ensures count == 0 && rank == 0.0
    {
      this.id := id;
      this.firstOccurrence := firstOccurrence;
      this.lastOccurrence := lastOccurrence;
      count := 0;
      rank := 0.0;
    }
  }

  /** A crash report; `problemId` is a nullable foreign key. */
  datatype Report = Report(id: int, reportType: string, count: int, problemId: Option<int>, componentId: int)

  /** An operating-system component (`OpSysComponent`). */
  datatype Component = Component(id: int, name: string)

  /** The problem-to-component association (`ProblemComponent`). */
  datatype ProblemComponent = ProblemComponent(problemId: int, componentId: int)

  /**
   * A row of `ReportHistoryDaily`, `ReportHistoryWeekly` or
   * `ReportHistoryMonthly`: a report's count in one release and one bucket,
   * the bucket being identified by its start date (`day`, `week` or `month`).
   */
  datatype HistoryRow = HistoryRow(reportId: int, releaseId: int, date: Date, count: int)

  /** A backtrace frame (`ReportBtFrame`) and the symbol source it refers to. */
  datatype Frame = Frame(id: int, symbolSourceId: int)

  datatype HistoryTable = Daily | Weekly | Monthly

  /** The date column of a history table. */
  datatype DateField = Day | Week | Month

  /** The date column each history table is bucketed by. */
  function BucketField(table: HistoryTable): DateField {
    match table
    case Daily => Day
    case Weekly => Week
    case Monthly => Month
  }

  datatype Store = Store(
    problems: seq<Problem>,
    reports: seq<Report>,
    components: seq<Component>,
    problemComponents: seq<ProblemComponent>,
    daily: seq<HistoryRow>,
    weekly: seq<HistoryRow>,
    monthly: seq<HistoryRow>)
  {
    function Rows(table: HistoryTable): seq<HistoryRow> {
      match table
      case Daily => daily
      case Weekly => weekly
      case Monthly => monthly
    }

    /** The problem objects of the store: what the ranking queries may write. */
    function ProblemObjects(): set<Problem> {
      set p | p in problems
    }
  }

  /** Ids are primary keys: these are the keys tables are unique by. */
  function ProblemKey(p: Problem): int {
    p.id
  }

  function ReportKey(r: Report): int {
    r.id
  }

  function ComponentKey(c: Component): int {
    c.id
  }

  /** What the database guarantees of the problem table: primary keys and real dates. */
  predicate WellFormed(store: Store) {
    && UniqueBy(store.problems, ProblemKey)
    && forall p :: p in store.problems ==> Valid(p.firstOccurrence) && Valid(p.lastOccurrence)
  }

  /** The row a foreign key refers to (the row an inner join pairs it with). */
  function FindProblem(problems: seq<Problem>, id: int): (r: Option<Problem>)
    ensures r.Some? ==> r.value in problems && r.value.id == id
    ensures r.None? ==> forall p :: p in problems ==> p.id != id
  {
    if |problems| == 0 then None
    else if problems[0].id == id then Some(problems[0])
    else
      assert problems == [problems[0]] + problems[1..];
      FindProblem(problems[1..], id)
  }

  function FindReport(reports: seq<Report>, id: int): (r: Option<Report>)
    ensures r.Some? ==> r.value in reports && r.value.id == id
    ensures r.None? ==> forall x :: x in reports ==> x.id != id
  {
    if |reports| == 0 then None
    else if reports[0].id == id then Some(reports[0])
    else
      assert reports == [reports[0]] + reports[1..];
      FindReport(reports[1..], id)
  }

  function FindComponent(components: seq<Component>, id: int): (r: Option<Component>)
    ensures r.Some? ==> r.value in components && r.value.id == id
    ensures r.None? ==> forall c :: c in components ==> c.id != id
  {
    if |components| == 0 then None
    else if components[0].id == id then Some(components[0])
    else
      assert components == [components[0]] + components[1..];
      FindComponent(components[1..], id)
  }
}
