/** The records the program stores and exchanges (internal/storage/models.go and
    GetLogsOptions in internal/storage/storage.go). JSON encoding is the identity
    here; float fields (error rates) are not part of the model. */
module Models {

  /** An instant: nanoseconds since the Unix epoch. Only its order matters. */
  type Time = int

  /** Go's zero time.Time, January 1 of year 1, 00:00:00 UTC. */
  const ZeroTime: Time := -62135596800 * 1000000000

  /** The level names the line parser recognises, in the order its pattern lists them. */
  const LevelNames: seq<string> := ["ERROR", "WARN", "INFO", "DEBUG", "FATAL"]

  predicate IsLevelName(s: string) {
    s == "ERROR" || s == "WARN" || s == "INFO" || s == "DEBUG" || s == "FATAL"
  }

  /** The levels that count as errors everywhere in the program. */
  predicate IsErrorLevel(level: string) {
    level == "ERROR" || level == "FATAL"
  }

  /** The four severities an analysis may carry. */
  predicate IsSeverity(s: string) {
    s == "P0" || s == "P1" || s == "P2" || s == "P3"
  }

  datatype LogLine = LogLine(
    timestamp: Time,
    level: string,
    message: string,
    raw: string,
    labels: map<string, string>,
    streamID: string)

  datatype AnalysisSummary = AnalysisSummary(
    timestamp: Time,
    summary: string,
    rootCause: string,
    severity: string,
    resolved: bool,
    resolutionNote: string)

  /** Recurring issues of a stream; its ErrorRate float is left out. */
  datatype StreamPatterns = StreamPatterns(commonErrors: seq<string>)

  datatype StreamContext = StreamContext(
    streamID: string,
    firstSeen: Time,
    lastSeen: Time,
    analyses: seq<AnalysisSummary>,
    patterns: StreamPatterns,
    totalLogs: int,
    errorCount: int)

  datatype Analysis = Analysis(
    timestamp: Time,
    streamID: string,
    summary: string,
    rootCause: string,
    severity: string,
    fixes: seq<string>,
    context: string)

  /** Stream metadata; its ErrorRate float is left out. */
  datatype Stream = Stream(
    id: string,
    name: string,
    source: string,
    active: bool,
    logsPerMin: int,
    lastSeen: Time,
    contextSummary: string)

  /** Filters of a log query: `limit` 0 means no limit, `since` equal to ZeroTime
      means no lower bound, and an empty `levels` admits every level. */
  datatype GetLogsOptions = GetLogsOptions(limit: int, since: Time, levels: seq<string>)

  /** The number of ERROR or FATAL records in a batch. */
  function CountErrors(logs: seq<LogLine>): (n: nat)
    ensures n <= |logs|
    ensures n == 0 <==> forall i :: 0 <= i < |logs| ==> !IsErrorLevel(logs[i].level)
  {
    if |logs| == 0 then 0
    else
      assert forall i :: 1 <= i < |logs| ==> logs[1..][i - 1] == logs[i];
      (if IsErrorLevel(logs[0].level) then 1 else 0) + CountErrors(logs[1..])
  }

  lemma {:induction false} CountErrorsAppend(a: seq<LogLine>, b: seq<LogLine>)
    ensures CountErrors(a + b) == CountErrors(a) + CountErrors(b)
  {
    if |a| > 0 {
      assert (a + b)[1..] == a[1..] + b;
      CountErrorsAppend(a[1..], b);
    } else {
      assert a + b == b;
    }
  }
}
