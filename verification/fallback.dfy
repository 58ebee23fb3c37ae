/** The offline classifier (FallbackAnalyzer in internal/analyzer/fallback.go): a
    fixed table of error patterns, each scored by how many of its keywords occur
    in any message of the batch. */
module Fallback {
  import opened Results
  import opened Strings
  import opened Models

  datatype Pattern = Pattern(keywords: seq<string>, rootCause: string, fixes: seq<string>, severity: string)

  /** NewFallbackAnalyzer's table, in its order. */
  const Patterns: seq<Pattern> := [
    Pattern(["connection", "timeout", "refused"],
      "Network connectivity issue - service unreachable or connection timing out",
      ["Check network connectivity and firewall rules",
       "Verify target service is running and accessible",
       "Review connection timeout settings"],
      "P1"),
    Pattern(["out of memory", "oom", "memory limit"],
      "Application exceeding memory limits",
      ["Increase memory allocation for the container/pod",
       "Review memory leaks in application code",
       "Enable memory profiling to identify hot spots"],
      "P0"),
    Pattern(["database", "db", "sql", "query"],
      "Database-related error - connection, query, or schema issue",
      ["Verify database connection parameters",
       "Check database server status and load",
       "Review query performance and indexes"],
      "P1"),
    Pattern(["authentication", "auth", "unauthorized", "403", "401"],
      "Authentication or authorization failure",
      ["Verify API keys and credentials are valid",
       "Check token expiration and refresh mechanisms",
       "Review RBAC policies and permissions"],
      "P2"),
    Pattern(["disk", "storage", "volume", "no space"],
      "Storage capacity issue - disk full or volume mount problem",
      ["Check available disk space on nodes",
       "Review log rotation and cleanup policies",
       "Increase persistent volume size if needed"],
      "P0"),
    Pattern(["crash", "panic", "fatal", "segfault"],
      "Critical application crash or fatal error",
      ["Review application logs for stack traces",
       "Check recent code deployments for regressions",
       "Enable core dumps for debugging"],
      "P0"),
    Pattern(["ssl", "tls", "certificate", "x509"],
      "SSL/TLS certificate validation failure",
      ["Verify certificate expiration dates",
       "Check certificate chain and CA trust",
       "Review certificate SANs and hostname matching"],
      "P1"),
    Pattern(["rate limit", "throttle", "429"],
      "API rate limiting or throttling in effect",
      ["Implement exponential backoff in client code",
       "Review and increase rate limit quotas",
       "Optimize request patterns to reduce frequency"],
      "P2"),
    Pattern(["dns", "resolve", "hostname"],
      "DNS resolution failure",
      ["Check DNS server configuration",
       "Verify service names and namespace in K8s",
       "Review /etc/resolv.conf settings"],
      "P1"),
    Pattern(["port", "bind", "address already in use"],
      "Port already in use - potential duplicate service",
      ["Check for duplicate deployments on same port",
       "Review port allocation and conflicts",
       "Verify service discovery configuration"],
      "P2")
  ]

  const GenericRootCause: string := "Unable to identify specific pattern. Manual investigation recommended."

  const GenericFixes: seq<string> := [
    "Review full error logs for detailed stack traces",
    "Check recent deployments or configuration changes",
    "Consult service documentation for common issues"
  ]

  /** Every pattern has a keyword to name in its summary and a valid severity. */
  lemma PatternsWellFormed()
    ensures forall i :: 0 <= i < |Patterns| ==> |Patterns[i].keywords| > 0 && IsSeverity(Patterns[i].severity)
  {
  }

  /** The keywords of one pattern are ASCII text. */
  lemma PatternKeywordsAscii(i: nat)
    requires i < |Patterns|
    ensures forall k :: 0 <= k < |Patterns[i].keywords| ==> AsciiText(Patterns[i].keywords[k])
  {
    var kws := Patterns[i].keywords;
    forall k | 0 <= k < |kws|
      ensures AsciiText(kws[k])
    {
    }
  }

  /** Every keyword of the table is ASCII text, so only the letters LowerChar maps
      onto ASCII can ever take part in a keyword hit. */
  lemma KeywordsAscii()
    ensures forall i, k :: 0 <= i < |Patterns| && 0 <= k < |Patterns[i].keywords| ==> AsciiText(Patterns[i].keywords[k])
  {
    forall i | 0 <= i < |Patterns|
      ensures forall k :: 0 <= k < |Patterns[i].keywords| ==> AsciiText(Patterns[i].keywords[k])
    {
      PatternKeywordsAscii(i);
    }
  }

  /** A message with a dotted capital I (U+0130) is lower-cased as Go's
      strings.ToLower does it, so "D\U{0130}SK" hits the keyword "disk". */
  lemma DottedCapitalIHitsDisk()
    ensures KeywordHit(Messages([LogLine(0, "ERROR", "D\U{0130}SK", "D\U{0130}SK", map[], "app")]), "disk")
  {
    var msgs := Messages([LogLine(0, "ERROR", "D\U{0130}SK", "D\U{0130}SK", map[], "app")]);
    assert ToLower("D\U{0130}SK") == "disk";
    assert ToLower("disk") == "disk";
    assert HasPrefix(msgs[0], "disk");
  }

  /** Every message, lower-cased, in input order, whatever its level. */
  function Messages(logs: seq<LogLine>): (msgs: seq<string>)
    ensures |msgs| == |logs|
    ensures forall i :: 0 <= i < |logs| ==> msgs[i] == ToLower(logs[i].message)
  {
    seq(|logs|, i requires 0 <= i < |logs| => ToLower(logs[i].message))
  }

  /** Some message contains the lower-cased keyword (the inner loop, which stops at
      the first hit). */
  function KeywordHit(msgs: seq<string>, keyword: string): (hit: bool)
    ensures hit <==> exists i :: 0 <= i < |msgs| && Contains(msgs[i], ToLower(keyword))
  {
    if |msgs| == 0 then false
    else
      assert forall i :: 1 <= i < |msgs| ==> msgs[1..][i - 1] == msgs[i];
      Contains(msgs[0], ToLower(keyword)) || KeywordHit(msgs[1..], keyword)
  }

  /** A pattern's score: the number of its keywords found in some message, each
      keyword counting at most once however many messages contain it. */
  function Score(msgs: seq<string>, keywords: seq<string>): (n: nat)
    ensures n <= |keywords|
    ensures n == 0 <==> forall k :: 0 <= k < |keywords| ==> !KeywordHit(msgs, keywords[k])
    ensures n == |keywords| <==> forall k :: 0 <= k < |keywords| ==> KeywordHit(msgs, keywords[k])
  {
    if |keywords| == 0 then 0
    else
      var n := |keywords|;
      var front := Score(msgs, keywords[..n - 1]);
      assert forall k :: 0 <= k < n - 1 ==> keywords[..n - 1][k] == keywords[k];
      front + (if KeywordHit(msgs, keywords[n - 1]) then 1 else 0)
  }

  /** The pattern loop: the index of the first strictly greatest positive score. */
  function Best(scores: seq<nat>): (r: Option<nat>)
    ensures r.None? <==> forall j :: 0 <= j < |scores| ==> scores[j] == 0
    ensures r.Some? ==>
      && r.value < |scores| && scores[r.value] > 0
      && (forall j :: 0 <= j < r.value ==> scores[j] < scores[r.value])
      && (forall j :: r.value < j < |scores| ==> scores[j] <= scores[r.value])
  {
    if |scores| == 0 then None
    else
      var n := |scores|;
      var prev := Best(scores[..n - 1]);
      assert forall j :: 0 <= j < n - 1 ==> scores[..n - 1][j] == scores[j];
      var top := if prev.Some? then scores[prev.value] else 0;
      if scores[n - 1] > top then Some(n - 1) else prev
  }

  /** The scores of the table against a batch's messages. */
  function Scores(msgs: seq<string>): (s: seq<nat>)
    ensures |s| == |Patterns|
    ensures forall i :: 0 <= i < |Patterns| ==> s[i] == Score(msgs, Patterns[i].keywords)
  {
    seq(|Patterns|, i requires 0 <= i < |Patterns| => Score(msgs, Patterns[i].keywords))
  }

  /** The pattern FallbackAnalyzer.Analyze settles on, if any. */
  function Matched(logs: seq<LogLine>): (r: Option<nat>)
    ensures r.Some? ==> r.value < |Patterns|
  {
    Best(Scores(Messages(logs)))
  }

  /** The note linking to the previous analysis: present exactly when the latest
      stored summary is unresolved, and it quotes that summary. */
  function RelatedNote(ctx: StreamContext): (note: string)
    ensures (|ctx.analyses| > 0 && !ctx.analyses[|ctx.analyses| - 1].resolved) ==>
      note == "May be related to previous unresolved issue: " + ctx.analyses[|ctx.analyses| - 1].summary
    ensures !(|ctx.analyses| > 0 && !ctx.analyses[|ctx.analyses| - 1].resolved) ==> note == ""
  {
    if |ctx.analyses| > 0 && !ctx.analyses[|ctx.analyses| - 1].resolved then
      "May be related to previous unresolved issue: " + ctx.analyses[|ctx.analyses| - 1].summary
    else ""
  }

  /** FallbackAnalyzer.Analyze. The analysis carries no stream id and a zero
      timestamp; the caller stamps both. */
  function Analyze(logs: seq<LogLine>, ctx: StreamContext): (a: Analysis)
    ensures IsSeverity(a.severity)
    ensures a.streamID == "" && a.timestamp == ZeroTime
    ensures Matched(logs).Some? ==>
      var p := Patterns[Matched(logs).value];
      && a.rootCause == p.rootCause && a.fixes == p.fixes && a.severity == p.severity
      && a.summary == "Detected " + p.keywords[0] + " issue (" + NatToString(CountErrors(logs)) + " errors in logs)"
    ensures Matched(logs).None? ==>
      && a.severity == "P3" && a.rootCause == GenericRootCause && a.fixes == GenericFixes
      && a.summary == "Generic errors detected (" + NatToString(CountErrors(logs)) + " errors)"
    ensures a.context == RelatedNote(ctx)
  {
    PatternsWellFormed();
    var errors := NatToString(CountErrors(logs));
    match Matched(logs)
    case Some(i) =>
      var p := Patterns[i];
      Analysis(ZeroTime, "", "Detected " + p.keywords[0] + " issue (" + errors + " errors in logs)",
        p.rootCause, p.severity, p.fixes, RelatedNote(ctx))
    case None =>
      Analysis(ZeroTime, "", "Generic errors detected (" + errors + " errors)",
        GenericRootCause, "P3", GenericFixes, RelatedNote(ctx))
  }

  /** Levels play no part in matching: two batches with the same messages settle on
      the same pattern, whatever their levels. */
  lemma MatchIgnoresLevels(logs1: seq<LogLine>, logs2: seq<LogLine>)
    requires |logs1| == |logs2|
    requires forall i :: 0 <= i < |logs1| ==> logs1[i].message == logs2[i].message
    ensures Matched(logs1) == Matched(logs2)
  {
    assert Messages(logs1) == Messages(logs2);
  }

  /** A batch with no messages at all matches nothing and yields the generic P3
      analysis. */
  lemma EmptyBatchIsGeneric(ctx: StreamContext)
    ensures Analyze([], ctx).severity == "P3"
    ensures Analyze([], ctx).rootCause == GenericRootCause
  {
    var scores := Scores(Messages([]));
    forall i | 0 <= i < |scores|
      ensures scores[i] == 0
    {
      var kws := Patterns[i].keywords;
      forall k | 0 <= k < |kws|
        ensures !KeywordHit([], kws[k])
      {
      }
    }
  }
}
