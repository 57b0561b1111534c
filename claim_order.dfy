/** The database helpers of Server/Services/LibraryFileService.Db.cs that carry logic: the
    order in which unprocessed files are claimed (the UNPROCESSED_ORDER_BY fragment), the
    log level chosen from a query's elapsed time, and the value a failed query yields. */
module ClaimOrder {
  import opened Common

  /** The columns the claim order reads. `priority` is JSON_EXTRACT over the joined
      library's data; None is SQL NULL (no library joined), which sorts below every number. */
  datatype UnprocessedRow = UnprocessedRow(processingOrder: int, priority: Option<int>, dateModified: DateTime)

  const UnsetOrderKey: int := 1000000

  /** case when ProcessingOrder > 0 then ProcessingOrder else 1000000 end */
  function OrderKey(r: UnprocessedRow): (k: int)
    ensures k > 0
    ensures r.processingOrder > 0 ==> k == r.processingOrder
    ensures r.processingOrder <= 0 ==> k == UnsetOrderKey
  {
    if r.processingOrder > 0 then r.processingOrder else UnsetOrderKey
  }

  /** Strict "higher priority" under descending order with NULL lowest. */
  predicate PriorityAbove(a: Option<int>, b: Option<int>) {
    a.Some? && (b.None? || a.value > b.value)
  }

  /** a is claimed strictly before b: key ascending, then priority descending, then
      modification date descending. */
  predicate ClaimedBefore(a: UnprocessedRow, b: UnprocessedRow) {
    || OrderKey(a) < OrderKey(b)
    || (OrderKey(a) == OrderKey(b) && PriorityAbove(a.priority, b.priority))
    || (OrderKey(a) == OrderKey(b) && a.priority == b.priority && a.dateModified > b.dateModified)
  }

  /** Two rows the order cannot tell apart. */
  predicate Tied(a: UnprocessedRow, b: UnprocessedRow) {
    OrderKey(a) == OrderKey(b) && a.priority == b.priority && a.dateModified == b.dateModified
  }

  /** The order is a strict weak order whose ties are exactly the equal keys: irreflexive,
      asymmetric, transitive and total up to ties. */
  lemma ClaimOrderIsStrictTotal(a: UnprocessedRow, b: UnprocessedRow, c: UnprocessedRow)
    ensures !ClaimedBefore(a, a)
    ensures ClaimedBefore(a, b) ==> !ClaimedBefore(b, a)
    ensures ClaimedBefore(a, b) && ClaimedBefore(b, c) ==> ClaimedBefore(a, c)
    ensures ClaimedBefore(a, b) || ClaimedBefore(b, a) || Tied(a, b)
  {
  }

  /** Any explicit processing order beats the unset ones, provided it is below 1000000;
      a larger explicit order ranks after every unset row. */
  lemma ExplicitOrderComesFirst(a: UnprocessedRow, b: UnprocessedRow)
    requires b.processingOrder <= 0
    ensures 0 < a.processingOrder < UnsetOrderKey ==> ClaimedBefore(a, b)
    ensures a.processingOrder > UnsetOrderKey ==> ClaimedBefore(b, a)
  {
  }

  /** Among unset rows, a higher library priority wins, and a missing library comes last. */
  lemma PriorityBreaksTies(a: UnprocessedRow, b: UnprocessedRow)
    requires OrderKey(a) == OrderKey(b)
    ensures a.priority.Some? && b.priority.None? ==> ClaimedBefore(a, b)
    ensures a.priority.Some? && b.priority.Some? && a.priority.value > b.priority.value ==> ClaimedBefore(a, b)
  {
  }

  /** A row list as the query returns it. */
  predicate SortedForClaim(rows: seq<UnprocessedRow>) {
    forall i, j :: 0 <= i < j < |rows| ==> !ClaimedBefore(rows[j], rows[i])
  }

  /** The first row of a sorted result (the one GetNext claims) is claimed no later than any
      other row. */
  lemma {:induction false} HeadIsClaimedFirst(rows: seq<UnprocessedRow>, k: nat)
    requires SortedForClaim(rows) && 0 < k < |rows|
    ensures ClaimedBefore(rows[0], rows[k]) || Tied(rows[0], rows[k])
  {
    ClaimOrderIsStrictTotal(rows[0], rows[k], rows[0]);
  }

  lemma ClaimOrderExamples()
    ensures ClaimedBefore(UnprocessedRow(5, None, 0), UnprocessedRow(10, Some(100), 9))
    ensures ClaimedBefore(UnprocessedRow(0, Some(2), 0), UnprocessedRow(-3, Some(1), 9))
    ensures ClaimedBefore(UnprocessedRow(0, Some(1), 9), UnprocessedRow(0, Some(1), 3))
    ensures ClaimedBefore(UnprocessedRow(0, None, 0), UnprocessedRow(2000000, Some(1), 0))
  {
  }

  // ---------------------------------------------------------------- Database_Log

  datatype LogLevel = NoLog | DebugLog | WarningLog | ErrorLog

  function Severity(l: LogLevel): nat {
    match l
    case NoLog => 0
    case DebugLog => 1
    case WarningLog => 2
    case ErrorLog => 3
  }

  /** The level Database_Log logs at for an elapsed time in ticks: over 10 s error, over 3 s
      warning, over 1 s debug, otherwise nothing. */
  function DatabaseLogLevel(elapsed: int): LogLevel {
    if elapsed > 10 * TicksPerSecond then ErrorLog
    else if elapsed > 3 * TicksPerSecond then WarningLog
    else if elapsed > TicksPerSecond then DebugLog
    else NoLog
  }

  /** The thresholds, each as an exact range. */
  lemma LogLevelRanges(elapsed: int)
    ensures DatabaseLogLevel(elapsed) == ErrorLog <==> elapsed > 10 * TicksPerSecond
    ensures DatabaseLogLevel(elapsed) == WarningLog <==> 3 * TicksPerSecond < elapsed <= 10 * TicksPerSecond
    ensures DatabaseLogLevel(elapsed) == DebugLog <==> TicksPerSecond < elapsed <= 3 * TicksPerSecond
    ensures DatabaseLogLevel(elapsed) == NoLog <==> elapsed <= TicksPerSecond
  {
  }

  /** A slower query never logs at a lower level. */
  lemma LogLevelMonotone(e1: int, e2: int)
    requires e1 <= e2
    ensures Severity(DatabaseLogLevel(e1)) <= Severity(DatabaseLogLevel(e2))
  {
  }

  // ---------------------------------------------------------------- Database_Get

  /** What the query does: throws, returns no row, or returns a row. */
  datatype QueryAnswer<T> = Threw | NoRow | Row(row: T)

  /** The value and the log level of Database_Get; `zero` is default(T). A throwing query
      logs an error and skips the elapsed-time log. */
  datatype GetResult<T> = GetResult(value: T, log: LogLevel)

  function DatabaseGet<T>(answer: QueryAnswer<T>, zero: T, elapsed: int): (r: GetResult<T>)
    ensures r.value == (if answer.Row? then answer.row else zero)
    ensures answer.Threw? ==> r.log == ErrorLog
    ensures !answer.Threw? ==> r.log == DatabaseLogLevel(elapsed)
  {
    match answer
    case Threw => GetResult(zero, ErrorLog)
    case NoRow => GetResult(zero, DatabaseLogLevel(elapsed))
    case Row(v) => GetResult(v, DatabaseLogLevel(elapsed))
  }

  /** A failing query cannot be told from an empty one by its value. */
  lemma FailureLooksLikeNoRow<T>(zero: T, e1: int, e2: int)
    ensures DatabaseGet(Threw, zero, e1).value == DatabaseGet(NoRow, zero, e2).value
  {
  }
}
