/** Analyzer (internal/analyzer/analyzer.go): which context goes into the prompt,
    and which analysis comes back. The prompt is kept as its sections rather than
    as rendered text; the LLM is a function from prompt to result. */
module Analyzer {
  import opened Results
  import opened Models
  import Fallback

  /** How many stored summaries the prompt quotes. */
  const HistoryLimit: nat := 3

  /** One quoted summary: its time (rendered "15:04"), text, severity, and
      RESOLVED or UNRESOLVED. */
  datatype HistoryLine = HistoryLine(at: Time, summary: string, severity: string, status: string)

  /** One recent log (rendered "[15:04:05] [LEVEL] message"). */
  datatype LogEntry = LogEntry(at: Time, level: string, message: string)

  datatype Section =
    | Header(streamID: string)
    | HistorySection(lines: seq<HistoryLine>)
    | PatternSection(patterns: seq<string>)
    | LogSection(entries: seq<LogEntry>)
    | Tasks

  type Prompt = seq<Section>

  /** The prompt line of one stored summary. */
  function Quote(s: AnalysisSummary): (h: HistoryLine)
    ensures h.status == "RESOLVED" <==> s.resolved
    ensures h.status == "UNRESOLVED" <==> !s.resolved
  {
    HistoryLine(s.timestamp, s.summary, s.severity, if s.resolved then "RESOLVED" else "UNRESOLVED")
  }

  /** The quoted history as written: the loop breaks at index 3, so it quotes the
      FIRST three summaries in stored order, which are the oldest ones. */
  function PromptHistory(analyses: seq<AnalysisSummary>): (lines: seq<HistoryLine>)
    ensures |lines| == if |analyses| < HistoryLimit then |analyses| else HistoryLimit
    ensures forall j :: 0 <= j < |lines| ==> lines[j] == Quote(analyses[j])
  {
    var n := if |analyses| < HistoryLimit then |analyses| else HistoryLimit;
    seq(n, j requires 0 <= j < n => Quote(analyses[j]))
  }

  /** The quoted history as its comment intends: the LAST three summaries, oldest
      of them first. */
  function PromptHistoryLatest(analyses: seq<AnalysisSummary>): (lines: seq<HistoryLine>)
    ensures |lines| == if |analyses| < HistoryLimit then |analyses| else HistoryLimit
    ensures forall j :: 0 <= j < |lines| ==> lines[j] == Quote(analyses[|analyses| - |lines| + j])
  {
    var n := if |analyses| < HistoryLimit then |analyses| else HistoryLimit;
    seq(n, j requires 0 <= j < n => Quote(analyses[|analyses| - n + j]))
  }

  /** The corrected history always quotes the newest summary when there is one. */
  lemma LatestIsQuoted(analyses: seq<AnalysisSummary>)
    requires |analyses| > 0
    ensures var lines := PromptHistoryLatest(analyses);
      lines[|lines| - 1] == Quote(analyses[|analyses| - 1])
  {
  }

  /** The two agree while there are at most three summaries. */
  lemma HistoriesAgreeWhenShort(analyses: seq<AnalysisSummary>)
    requires |analyses| <= HistoryLimit
    ensures PromptHistory(analyses) == PromptHistoryLatest(analyses)
  {
  }

  /** With four summaries the code as written leaves out the newest one, which is
      the one most likely to matter. */
  lemma FirstThreeMissLatest(old1: AnalysisSummary, old2: AnalysisSummary, old3: AnalysisSummary, latest: AnalysisSummary)
    requires latest.summary !in {old1.summary, old2.summary, old3.summary}
    ensures forall j :: 0 <= j < |PromptHistory([old1, old2, old3, latest])| ==>
      PromptHistory([old1, old2, old3, latest])[j].summary != latest.summary
    ensures Quote(latest) in PromptHistoryLatest([old1, old2, old3, latest])
  {
    var lines := PromptHistoryLatest([old1, old2, old3, latest]);
    assert lines[2] == Quote(latest);
  }

  /** The prompt's sections around a given quoted history: the header, the history
      section when there is history, the patterns section when there are common
      errors, one entry per log, the tasks. */
  function PromptAround(streamID: string, logs: seq<LogLine>, ctx: StreamContext,
                        history: seq<HistoryLine>): (p: Prompt)
    ensures |p| >= 3 && p[0] == Header(streamID) && p[|p| - 1] == Tasks
    ensures p[|p| - 2] == LogSection(LogEntries(logs))
    ensures (exists j :: 0 <= j < |p| && p[j].HistorySection?) <==> |history| > 0
    ensures (exists j :: 0 <= j < |p| && p[j].PatternSection?) <==> |ctx.patterns.commonErrors| > 0
    ensures forall j :: 0 <= j < |p| && p[j].HistorySection? ==> p[j].lines == history
    ensures forall j :: 0 <= j < |p| && p[j].PatternSection? ==> p[j].patterns == ctx.patterns.commonErrors
  {
    var hs := if |history| > 0 then [HistorySection(history)] else [];
    var patterns := if |ctx.patterns.commonErrors| > 0 then [PatternSection(ctx.patterns.commonErrors)] else [];
    var p := [Header(streamID)] + hs + patterns + [LogSection(LogEntries(logs)), Tasks];
    assert |hs| > 0 ==> p[1] == hs[0];
    assert |patterns| > 0 ==> p[1 + |hs|] == patterns[0];
    p
  }

  /** buildPrompt as written: the history section quotes the first three stored
      summaries (PromptHistory). */
  function BuildPrompt(streamID: string, logs: seq<LogLine>, ctx: StreamContext): (p: Prompt)
    ensures |p| >= 3 && p[0] == Header(streamID) && p[|p| - 1] == Tasks
    ensures p[|p| - 2] == LogSection(LogEntries(logs))
    ensures (exists j :: 0 <= j < |p| && p[j].HistorySection?) <==> |ctx.analyses| > 0
    ensures (exists j :: 0 <= j < |p| && p[j].PatternSection?) <==> |ctx.patterns.commonErrors| > 0
    ensures forall j :: 0 <= j < |p| && p[j].HistorySection? ==> p[j].lines == PromptHistory(ctx.analyses)
    ensures forall j :: 0 <= j < |p| && p[j].PatternSection? ==> p[j].patterns == ctx.patterns.commonErrors
  {
    PromptAround(streamID, logs, ctx, PromptHistory(ctx.analyses))
  }

  /** buildPrompt as its comment intends: the history section quotes the latest
      three summaries (PromptHistoryLatest). */
  function BuildPromptIntended(streamID: string, logs: seq<LogLine>, ctx: StreamContext): (p: Prompt)
    ensures |p| >= 3 && p[0] == Header(streamID) && p[|p| - 1] == Tasks
    ensures p[|p| - 2] == LogSection(LogEntries(logs))
    ensures (exists j :: 0 <= j < |p| && p[j].HistorySection?) <==> |ctx.analyses| > 0
    ensures (exists j :: 0 <= j < |p| && p[j].PatternSection?) <==> |ctx.patterns.commonErrors| > 0
    ensures forall j :: 0 <= j < |p| && p[j].HistorySection? ==> p[j].lines == PromptHistoryLatest(ctx.analyses)
    ensures forall j :: 0 <= j < |p| && p[j].PatternSection? ==> p[j].patterns == ctx.patterns.commonErrors
  {
    PromptAround(streamID, logs, ctx, PromptHistoryLatest(ctx.analyses))
  }

  /** The two prompts differ only once a stream has more than three summaries. */
  lemma PromptsAgreeWhenShort(streamID: string, logs: seq<LogLine>, ctx: StreamContext)
    requires |ctx.analyses| <= HistoryLimit
    ensures BuildPrompt(streamID, logs, ctx) == BuildPromptIntended(streamID, logs, ctx)
  {
    HistoriesAgreeWhenShort(ctx.analyses);
  }

  /** The intended prompt always quotes the newest summary, which the prompt as
      written can leave out (FirstThreeMissLatest). */
  lemma IntendedPromptQuotesLatest(streamID: string, logs: seq<LogLine>, ctx: StreamContext)
    requires |ctx.analyses| > 0
    ensures var p := BuildPromptIntended(streamID, logs, ctx);
      exists j :: 0 <= j < |p| && p[j].HistorySection? && Quote(ctx.analyses[|ctx.analyses| - 1]) in p[j].lines
  {
    var p := BuildPromptIntended(streamID, logs, ctx);
    var j :| 0 <= j < |p| && p[j].HistorySection?;
    LatestIsQuoted(ctx.analyses);
    var lines := PromptHistoryLatest(ctx.analyses);
    assert lines[|lines| - 1] in lines;
  }

  /** The recent-logs section: each log contributes exactly one entry, in order. */
  function LogEntries(logs: seq<LogLine>): (entries: seq<LogEntry>)
    ensures |entries| == |logs|
    ensures forall j :: 0 <= j < |logs| ==>
      entries[j] == LogEntry(logs[j].timestamp, logs[j].level, logs[j].message)
  {
    seq(|logs|, j requires 0 <= j < |logs| => LogEntry(logs[j].timestamp, logs[j].level, logs[j].message))
  }

  /** The LLM client, present exactly when an API key is configured. */
  function New(apiKey: string, client: Prompt -> Result<Analysis>): (llm: Option<Prompt -> Result<Analysis>>)
    ensures llm.Some? <==> apiKey != ""
  {
    if apiKey != "" then Some(client) else None
  }

  /** An analysis stamped with its stream and the time it was made. */
  function Stamp(a: Analysis, streamID: string, now: Time): (r: Analysis)
    ensures r.streamID == streamID && r.timestamp == now
    ensures r.summary == a.summary && r.rootCause == a.rootCause && r.severity == a.severity
    ensures r.fixes == a.fixes && r.context == a.context
  {
    a.(streamID := streamID, timestamp := now)
  }

  /** Analyzer.Analyze. `loaded` is what GetContext returned for the stream. */
  function Analyze(streamID: string, logs: seq<LogLine>, loaded: Result<StreamContext>,
                   llm: Option<Prompt -> Result<Analysis>>, now: Time): (r: Result<Analysis>)
    ensures |logs| == 0 ==> r == Err("no logs to analyze")
    ensures |logs| > 0 && loaded.Err? ==> r == Err(loaded.message)
    ensures r.Ok? <==> |logs| > 0 && loaded.Ok?
    ensures r.Ok? ==> r.value.streamID == streamID && r.value.timestamp == now
    ensures r.Ok? && llm.None? ==> r.value == Stamp(Fallback.Analyze(logs, loaded.value), streamID, now)
    ensures r.Ok? && llm.Some? ==>
      var reply := llm.value(BuildPrompt(streamID, logs, loaded.value));
      r.value == Stamp(if reply.Ok? then reply.value else Fallback.Analyze(logs, loaded.value), streamID, now)
  {
    if |logs| == 0 then Err("no logs to analyze")
    else match loaded
      case Err(e) => Err(e)
      case Ok(ctx) =>
        var a := match llm
          case None => Fallback.Analyze(logs, ctx)
          case Some(client) =>
            (match client(BuildPrompt(streamID, logs, ctx))
             case Ok(a) => a
             case Err(_) => Fallback.Analyze(logs, ctx));
        Ok(Stamp(a, streamID, now))
  }

  /** Without an API key the result never depends on the LLM client. */
  lemma NoKeyMeansFallback(streamID: string, logs: seq<LogLine>, ctx: StreamContext,
                           client: Prompt -> Result<Analysis>, now: Time)
    requires |logs| > 0
    ensures Analyze(streamID, logs, Ok(ctx), New("", client), now)
      == Ok(Stamp(Fallback.Analyze(logs, ctx), streamID, now))
  {
  }

  /** A failing LLM gives the same analysis as no LLM at all. */
  lemma FailingLlmIsFallback(streamID: string, logs: seq<LogLine>, ctx: StreamContext,
                             client: Prompt -> Result<Analysis>, now: Time)
    requires client(BuildPrompt(streamID, logs, ctx)).Err?
    ensures Analyze(streamID, logs, Ok(ctx), Some(client), now) == Analyze(streamID, logs, Ok(ctx), None, now)
  {
  }

  /** Whatever the LLM answers, a successful analysis has a valid severity when the
      fallback is used. */
  lemma FallbackSeverityValid(streamID: string, logs: seq<LogLine>, ctx: StreamContext, now: Time)
    requires |logs| > 0
    ensures IsSeverity(Analyze(streamID, logs, Ok(ctx), None, now).value.severity)
  {
  }
}
