/** The context logic of the HTTP handlers (internal/server/handlers.go): the limit
    of the logs endpoint, marking an analysis resolved, and running and recording an
    analysis. Requests and responses are reduced to their parameters and outcomes. */
module Handlers {
  import opened Results
  import opened Strings
  import opened OrderedMap
  import opened Models
  import opened BoltLayout
  import opened LogQuery
  import BoltStore
  import Analyzer
  import Fallback

  /** The range of Go's 64-bit int. */
  const MinInt: int := -0x8000_0000_0000_0000
  const MaxInt: int := 0x7FFF_FFFF_FFFF_FFFF

  /** The optional sign and the digits after it. */
  function Unsigned(s: string): string {
    if |s| > 0 && (s[0] == '+' || s[0] == '-') then s[1..] else s
  }

  predicate Negative(s: string) {
    |s| > 0 && s[0] == '-'
  }

  /** The largest value strconv.ParseUint accepts for 64 bits. */
  const MaxUint64: int := 0xFFFF_FFFF_FFFF_FFFF

  /** strconv.Atoi's value, its error dropped. ParseUint reads the digits after
      the sign from the left and reports a range error at the first digit that
      takes the value past MaxUint64, before it sees any later character; the
      signed result is then the nearest end of the 64-bit range. Otherwise a
      syntax error (no digits, or a character that is not one) reads as 0, and a
      number outside the signed range as its nearest end. Inputs shorter than 19
      bytes take Atoi's fast path, which agrees: they cannot overflow. */
  function Atoi(s: string): (n: int)
    ensures MinInt <= n <= MaxInt
    ensures DigitsValue(LeadingDigits(Unsigned(s))) > MaxUint64 ==>
      n == (if Negative(s) then MinInt else MaxInt)
    ensures (DigitsValue(LeadingDigits(Unsigned(s))) <= MaxUint64 && (|Unsigned(s)| == 0 || !AllDigits(Unsigned(s)))) ==> n == 0
    ensures |Unsigned(s)| > 0 && AllDigits(Unsigned(s)) ==>
      var v := if Negative(s) then -(DigitsValue(Unsigned(s)) as int) else DigitsValue(Unsigned(s)) as int;
      n == (if v < MinInt then MinInt else if v > MaxInt then MaxInt else v)
  {
    var digits := Unsigned(s);
    if DigitsValue(LeadingDigits(digits)) > MaxUint64 then
      (if Negative(s) then MinInt else MaxInt)
    else if |digits| == 0 || !AllDigits(digits) then 0
    else
      var v := if Negative(s) then -(DigitsValue(digits) as int) else DigitsValue(digits) as int;
      if v < MinInt then MinInt else if v > MaxInt then MaxInt else v
  }

  /** The limit the logs endpoint passes on: the query's value, or 100 when that is
      0 or does not parse. */
  function LogsLimit(query: string): (limit: int)
    ensures limit != 0
    ensures Atoi(query) == 0 ==> limit == 100
    ensures Atoi(query) != 0 ==> limit == Atoi(query)
  {
    var n := Atoi(query);
    if n == 0 then 100 else n
  }

  /** A positive limit written in decimal is passed on as it is. */
  lemma LogsLimitOfDecimal(n: nat)
    requires 0 < n <= MaxInt
    ensures LogsLimit(NatToString(n)) == n
  {
    NatToStringRoundTrip(n);
    assert Unsigned(NatToString(n)) == NatToString(n);
  }

  /** A missing, zero or malformed limit becomes 100. */
  lemma LogsLimitDefaults()
    ensures LogsLimit("") == 100
    ensures LogsLimit("0") == 100
    ensures LogsLimit("ten") == 100
    ensures LogsLimit("-") == 100
  {
    assert !AllDigits("ten") by {
      assert !IsDigit("ten"[0]);
    }
    assert Unsigned("-") == [];
  }

  /** Nine times ten to the nineteenth is past MaxUint64. */
  lemma Power10Past64Bits()
    ensures 9 * Power10(19) > MaxUint64
  {
    assert Power10(4) == 10_000;
    assert Power10(8) == 100_000_000 by {
      assert Power10(8) == 10 * 10 * 10 * 10 * Power10(4);
    }
    assert Power10(12) == 1_000_000_000_000 by {
      assert Power10(12) == 10 * 10 * 10 * 10 * Power10(8);
    }
    assert Power10(16) == 10_000_000_000_000_000 by {
      assert Power10(16) == 10 * 10 * 10 * 10 * Power10(12);
    }
    assert Power10(19) == 10 * 10 * 10 * Power10(16);
  }

  /** The leading run of digits ends at the first character that is not one. */
  lemma LeadingRun(s: string, n: nat)
    requires n < |s| && !IsDigit(s[n])
    requires forall k :: 0 <= k < n ==> IsDigit(s[k])
    ensures LeadingDigits(s) == s[..n]
  {
  }

  /** Twenty or more digits led by a 9 are past MaxUint64. */
  lemma NinesOverflow(d: string)
    requires |d| >= 20 && AllDigits(d) && d[0] == '9'
    ensures DigitsValue(d) > MaxUint64
  {
    LeadingNineLowerBound(d);
    Power10Monotone(19, |d| - 1);
    Power10Past64Bits();
  }

  /** A text whose digits, read before any other character, pass MaxUint64 is
      clamped to the largest int, whatever follows them. */
  lemma OverflowingDigits(s: string, n: nat)
    requires 20 <= n < |s| && !IsDigit(s[n]) && s[0] == '9'
    requires forall k :: 0 <= k < n ==> IsDigit(s[k])
    ensures LogsLimit(s) == MaxInt
  {
    assert Unsigned(s) == s;
    LeadingRun(s, n);
    NinesOverflow(s[..n]);
    assert Atoi(s) == MaxInt;
  }

  /** Twenty digits overflow ParseUint before the trailing letter is read, so the
      limit is the largest int rather than the default. */
  lemma OverflowBeforeSyntaxError()
    ensures LogsLimit("99999999999999999999x") == MaxInt
  {
    var s := "99999999999999999999x";
    assert forall k :: 0 <= k < 20 ==> IsDigit(s[k]);
    OverflowingDigits(s, 20);
  }

  /** handleGetLogs: the bucket's query with the endpoint's limit; `since` is the
      lower bound the duration parameter gives, ZeroTime when absent. */
  function GetLogsEndpoint(st: Store, streamID: string, limitQuery: string, since: Time): (logs: seq<LogLine>)
    requires Valid(st)
    ensures var limit := LogsLimit(limitQuery);
      logs == Query(Values(LogBucket(st, streamID)), GetLogsOptions(limit, since, []))
  {
    Query(Values(LogBucket(st, streamID)), GetLogsOptions(LogsLimit(limitQuery), since, []))
  }

  /** A negative limit in the query gets through and selects nothing. */
  lemma NegativeLimitSelectsNothing(st: Store, streamID: string, since: Time)
    requires Valid(st)
    ensures GetLogsEndpoint(st, streamID, "-5", since) == []
  {
    assert Unsigned("-5") == "5";
    assert DigitsValue("5") == 5 by {
      assert "5"[..0] == [];
    }
    QuerySound(Values(LogBucket(st, streamID)), GetLogsOptions(-5, since, []));
  }

  /* ---------------------------------------------------------------------------
     handleResolve
     --------------------------------------------------------------------------- */

  /** How a resolve request ends. `Panic` is an index expression out of range, which
      the router's panic recovery answers with status 500. */
  datatype ResolveOutcome = Resolved(ctx: StreamContext) | BadRequest(message: string) | Panic

  /** The entry at `i` marked resolved with the note; the rest as it was. */
  function MarkResolved(analyses: seq<AnalysisSummary>, i: nat, note: string): (r: seq<AnalysisSummary>)
    requires i < |analyses|
    ensures |r| == |analyses|
    ensures r[i] == analyses[i].(resolved := true, resolutionNote := note)
    ensures forall j :: 0 <= j < |r| && j != i ==> r[j] == analyses[j]
  {
    analyses[i := analyses[i].(resolved := true, resolutionNote := note)]
  }

  /** handleResolve as written: only `index >= len` is rejected, so a negative index
      reaches the slice index and panics. */
  function ResolveAsWritten(ctx: StreamContext, index: int, note: string): (r: ResolveOutcome)
    ensures index >= |ctx.analyses| ==> r == BadRequest("invalid analysis index")
    ensures index < 0 ==> r == Panic
    ensures 0 <= index < |ctx.analyses| ==>
      r == Resolved(ctx.(analyses := MarkResolved(ctx.analyses, index, note)))
  {
    if index >= |ctx.analyses| then BadRequest("invalid analysis index")
    else if index < 0 then Panic
    else Resolved(ctx.(analyses := MarkResolved(ctx.analyses, index, note)))
  }

  /** A negative index is not rejected as a bad request: the handler panics. */
  lemma NegativeIndexPanics(ctx: StreamContext, note: string)
    ensures ResolveAsWritten(ctx, -1, note) == Panic
  {
  }

  /** handleResolve with the bounds check it evidently intends: every index outside
      the list is a bad request. */
  function Resolve(ctx: StreamContext, index: int, note: string): (r: ResolveOutcome)
    ensures !r.Panic?
    ensures r.BadRequest? <==> index < 0 || index >= |ctx.analyses|
    ensures r.Resolved? ==>
      && |r.ctx.analyses| == |ctx.analyses|
      && r.ctx.analyses[index].resolved && r.ctx.analyses[index].resolutionNote == note
      && (forall j :: 0 <= j < |ctx.analyses| && j != index ==> r.ctx.analyses[j] == ctx.analyses[j])
      && r.ctx == ctx.(analyses := r.ctx.analyses)
  {
    if index < 0 || index >= |ctx.analyses| then BadRequest("invalid analysis index")
    else Resolved(ctx.(analyses := MarkResolved(ctx.analyses, index, note)))
  }

  /** The corrected handler agrees with the written one on every index the written
      one does not panic on. */
  lemma ResolveAgrees(ctx: StreamContext, index: int, note: string)
    requires index >= 0
    ensures Resolve(ctx, index, note) == ResolveAsWritten(ctx, index, note)
  {
  }

  /** Resolving the same entry twice with the same note is resolving it once. */
  lemma ResolveIdempotent(ctx: StreamContext, index: int, note: string)
    requires Resolve(ctx, index, note).Resolved?
    ensures Resolve(Resolve(ctx, index, note).ctx, index, note) == Resolve(ctx, index, note)
  {
    var once := Resolve(ctx, index, note).ctx;
    assert MarkResolved(once.analyses, index, note) == once.analyses;
  }

  /** The store after a resolve request, given how the request ends: the context
      is written back only when an entry was resolved. */
  function WriteBack(st: Store, streamID: string, outcome: ResolveOutcome, now: Time)
    : (r: (ResolveOutcome, Store))
    requires Valid(st)
    ensures Valid(r.1) && r.0 == outcome
    ensures !outcome.Resolved? ==> r.1 == st
    ensures outcome.Resolved? ==> BoltStore.GetContext(r.1, streamID, now) == outcome.ctx
  {
    match outcome
    case Resolved(c) =>
      BoltStore.ContextRoundTrip(st, streamID, c, now);
      (outcome, BoltStore.UpdateContext(st, streamID, c))
    case _ => (outcome, st)
  }

  /** handleResolve as written: a negative index panics (status 500 after panic
      recovery) and leaves the store as it was. */
  function HandleResolve(st: Store, streamID: string, index: int, note: string, now: Time)
    : (r: (ResolveOutcome, Store))
    requires Valid(st)
    ensures Valid(r.1)
    ensures !r.0.Resolved? ==> r.1 == st
    ensures r.0.Resolved? ==> BoltStore.GetContext(r.1, streamID, now) == r.0.ctx
    ensures r.0 == ResolveAsWritten(BoltStore.GetContext(st, streamID, now), index, note)
    ensures index < 0 ==> r.0 == Panic
  {
    WriteBack(st, streamID, ResolveAsWritten(BoltStore.GetContext(st, streamID, now), index, note), now)
  }

  /** handleResolve with the intended bounds check: it never panics, and every index
      outside the list is a bad request that leaves the store as it was. */
  function HandleResolveIntended(st: Store, streamID: string, index: int, note: string, now: Time)
    : (r: (ResolveOutcome, Store))
    requires Valid(st)
    ensures Valid(r.1)
    ensures !r.0.Panic?
    ensures !r.0.Resolved? ==> r.1 == st
    ensures r.0.Resolved? ==> BoltStore.GetContext(r.1, streamID, now) == r.0.ctx
    ensures r.0 == Resolve(BoltStore.GetContext(st, streamID, now), index, note)
  {
    WriteBack(st, streamID, Resolve(BoltStore.GetContext(st, streamID, now), index, note), now)
  }

  /** The two handlers agree on every request the written one does not panic on. */
  lemma HandlersAgreeOffPanic(st: Store, streamID: string, index: int, note: string, now: Time)
    requires Valid(st)
    requires !HandleResolve(st, streamID, index, note, now).0.Panic?
    ensures HandleResolveIntended(st, streamID, index, note, now) == HandleResolve(st, streamID, index, note, now)
  {
    var ctx := BoltStore.GetContext(st, streamID, now);
    if index >= 0 {
      ResolveAgrees(ctx, index, note);
    }
  }

  /* ---------------------------------------------------------------------------
     handleAnalyze
     --------------------------------------------------------------------------- */

  /** How many of the newest logs an analysis looks at. */
  const AnalyzeWindow: int := 100

  /** The summary of an analysis as it is appended to the context: unresolved. */
  function Summarize(a: Analysis): (s: AnalysisSummary)
    ensures s.timestamp == a.timestamp && s.summary == a.summary
    ensures s.rootCause == a.rootCause && s.severity == a.severity
    ensures !s.resolved && s.resolutionNote == ""
  {
    AnalysisSummary(a.timestamp, a.summary, a.rootCause, a.severity, false, "")
  }

  /** The context with one more summary at the end; nothing else changes. */
  function AppendSummary(ctx: StreamContext, a: Analysis): (r: StreamContext)
    ensures |r.analyses| == |ctx.analyses| + 1
    ensures r.analyses[..|ctx.analyses|] == ctx.analyses
    ensures r.analyses[|ctx.analyses|] == Summarize(a)
    ensures r == ctx.(analyses := r.analyses)
  {
    ctx.(analyses := ctx.analyses + [Summarize(a)])
  }

  /** A new summary is unresolved, so the fallback classifier links the next analysis
      to it. */
  lemma AppendedSummaryIsOpen(ctx: StreamContext, a: Analysis)
    ensures Fallback.RelatedNote(AppendSummary(ctx, a)) ==
      "May be related to previous unresolved issue: " + a.summary
  {
  }

  /** The logs an analysis looks at: the 100 newest of the stream. */
  function AnalysisInput(st: Store, streamID: string): (logs: seq<LogLine>)
    requires Valid(st)
    ensures |logs| <= AnalyzeWindow
    ensures var vals := Values(LogBucket(st, streamID));
      |logs| <= |vals| && logs == vals[|vals| - |logs|..]
  {
    var vals := Values(LogBucket(st, streamID));
    var opts := GetLogsOptions(AnalyzeWindow, ZeroTime, []);
    assert RunStart(vals, opts) == 0;
    LevelFilterAll(vals, opts);
    Query(vals, opts)
  }

  /** handleAnalyze, the stream id already URL-decoded: no logs is an error that
      stores nothing; otherwise the analysis is stored and its summary appended to
      the stream's context. */
  function HandleAnalyze(st: Store, streamID: string, llm: Option<Analyzer.Prompt -> Result<Analysis>>,
                         now: Time, renderSec: Time -> string): (r: (Result<Analysis>, Store))
    requires Valid(st)
    ensures Valid(r.1)
    ensures |AnalysisInput(st, streamID)| == 0 ==> r == (Err("no logs to analyze"), st)
    ensures r.0.Ok? <==> |AnalysisInput(st, streamID)| > 0
    ensures r.0.Ok? ==>
      r.0 == Analyzer.Analyze(streamID, AnalysisInput(st, streamID), Ok(BoltStore.GetContext(st, streamID, now)), llm, now)
  {
    var logs := AnalysisInput(st, streamID);
    if |logs| == 0 then (Err("no logs to analyze"), st)
    else
      match Analyzer.Analyze(streamID, logs, Ok(BoltStore.GetContext(st, streamID, now)), llm, now)
      case Err(e) => (Err("analysis failed: " + e), st)
      case Ok(a) =>
        var st1 := BoltStore.StoreAnalysis(st, a, renderSec);
        var ctx := BoltStore.GetContext(st1, streamID, now);
        (Ok(a), BoltStore.UpdateContext(st1, streamID, AppendSummary(ctx, a)))
  }

  /** After a successful analysis the stream's context holds exactly one more
      summary, at the end, describing it, and the analysis is in the stream's
      history. */
  lemma AnalyzeRecords(st: Store, streamID: string, llm: Option<Analyzer.Prompt -> Result<Analysis>>,
                       now: Time, renderSec: Time -> string)
    requires Valid(st)
    requires HandleAnalyze(st, streamID, llm, now, renderSec).0.Ok?
    ensures var (res, st2) := HandleAnalyze(st, streamID, llm, now, renderSec);
      var before := BoltStore.GetContext(st, streamID, now).analyses;
      var after := BoltStore.GetContext(st2, streamID, now).analyses;
      && |after| == |before| + 1
      && after[..|before|] == before
      && after[|before|] == Summarize(res.value)
      && res.value in BoltStore.OwnHistory(st2, streamID, 0)
  {
    var (res, st2) := HandleAnalyze(st, streamID, llm, now, renderSec);
    var a := res.value;
    var st1 := BoltStore.StoreAnalysis(st, a, renderSec);
    assert a.streamID == streamID;
    BoltStore.StoredAnalysisInHistory(st, a, renderSec);
    BoltStore.ContextRoundTrip(st1, streamID, AppendSummary(BoltStore.GetContext(st1, streamID, now), a), now);
    assert BoltStore.GetContext(st1, streamID, now) == BoltStore.GetContext(st, streamID, now);
    assert st2.analyses == st1.analyses;
  }
}
