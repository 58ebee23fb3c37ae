/** BoltStorage (internal/storage/bolt.go) as a state-in/state-out model: each
    operation is one transaction, applied atomically to a Store (BoltLayout). */
module BoltStore {
  import opened Results
  import opened Strings
  import opened OrderedMap
  import opened Models
  import opened BoltLayout
  import opened LogQuery
  import opened PrefixScan

  /** StoreLogs: insert the batch, evict down to capacity, refresh the stream row
      and fold the batch into an existing context row. The clock is read twice,
      once for each row, so the two LastSeen instants are separate parameters. */
  function StoreLogs(st: Store, streamID: string, logs: seq<LogLine>, streamSeen: Time, contextSeen: Time,
                     render: Time -> string): (r: Store)
    requires Valid(st)
    ensures Valid(r)
    // the stream's logs bucket
    ensures streamID in r.logs && |r.logs[streamID]| <= RingCapacity
    ensures r.logs[streamID] == Evict(Inserted(st, streamID, logs, render))
    ensures r.logs == st.logs[streamID := r.logs[streamID]]
    // stream metadata and context rows
    ensures r.streams == TouchStream(st.streams, streamID, streamSeen)
    ensures r.contexts == FoldContext(st.contexts, streamID, |Inserted(st, streamID, logs, render)|, CountErrors(logs), contextSeen)
    // analyses
    ensures r.analyses == st.analyses
  {
    Store(
      SetBucket(st.logs, streamID, Evict(Inserted(st, streamID, logs, render))),
      TouchStream(st.streams, streamID, streamSeen),
      FoldContext(st.contexts, streamID, |Inserted(st, streamID, logs, render)|, CountErrors(logs), contextSeen),
      st.analyses)
  }

  /** A sequence of StoreLogs calls, one batch per call. Whatever batches arrive,
      in whatever order, the store stays valid and no logs bucket ever holds more
      than RingCapacity records. */
  function StoreAll(st: Store, streamIDs: seq<string>, batches: seq<seq<LogLine>>, now: Time, render: Time -> string)
    : (r: Store)
    requires Valid(st) && |streamIDs| == |batches|
    ensures Valid(r)
    ensures forall id :: id in r.logs ==> |r.logs[id]| <= RingCapacity
    decreases |batches|
  {
    if |batches| == 0 then st
    else
      var next := StoreLogs(st, streamIDs[0], batches[0], now, now, render);
      StoreAll(next, streamIDs[1..], batches[1..], now, render)
  }

  /* ---------------------------------------------------------------------------
     GetLogs
     --------------------------------------------------------------------------- */

  /** GetLogs: the cursor walk over the stream's bucket in key order; a stream
      without a bucket yields no records. */
  method GetLogs(st: Store, streamID: string, opts: GetLogsOptions) returns (logs: seq<LogLine>)
    requires Valid(st)
    ensures logs == Query(Values(LogBucket(st, streamID)), opts)
    ensures streamID !in st.logs ==> logs == []
  {
    logs := ScanBackwards(Values(LogBucket(st, streamID)), opts);
  }

  /* ---------------------------------------------------------------------------
     Stream metadata
     --------------------------------------------------------------------------- */

  /** GetStream: the stored metadata, or the "stream not found" error. */
  function GetStream(st: Store, streamID: string): (r: Result<Stream>)
    ensures r.Ok? <==> streamID in Keys(st.streams)
    ensures r.Ok? ==> Get(st.streams, streamID) == Some(r.value)
    ensures r.Err? ==> r.message == "stream not found"
  {
    match Get(st.streams, streamID)
    case Some(s) => Ok(s)
    case None => Err("stream not found")
  }

  /** UpdateStream: the metadata is written under its own ID. */
  function UpdateStream(st: Store, stream: Stream): (r: Store)
    requires Valid(st)
    ensures Valid(r)
    ensures Keys(r.streams) == Keys(st.streams) + {stream.id}
    ensures forall id :: id != stream.id ==> Get(r.streams, id) == Get(st.streams, id)
    ensures r.logs == st.logs && r.contexts == st.contexts && r.analyses == st.analyses
  {
    st.(streams := Put(st.streams, stream.id, stream))
  }

  /** Writing metadata and reading it back by its ID gives it back. */
  lemma StreamRoundTrip(st: Store, stream: Stream)
    requires Valid(st)
    ensures GetStream(UpdateStream(st, stream), stream.id) == Ok(stream)
  {
  }

  /* ---------------------------------------------------------------------------
     Stream context
     --------------------------------------------------------------------------- */

  /** GetContext: the stored context, or on first contact a fresh one for the
      stream, first seen `now`, with no analyses, no common errors and zero counts. */
  function GetContext(st: Store, streamID: string, now: Time): (c: StreamContext)
    ensures Get(st.contexts, streamID).Some? ==> c == Get(st.contexts, streamID).value
    ensures Get(st.contexts, streamID).None? ==>
      && c.streamID == streamID && c.firstSeen == now
      && c.analyses == [] && c.patterns.commonErrors == []
      && c.totalLogs == 0 && c.errorCount == 0
  {
    match Get(st.contexts, streamID)
    case Some(c) => c
    case None => StreamContext(streamID, now, ZeroTime, [], StreamPatterns([]), 0, 0)
  }

  /** UpdateContext: the context is written under the given stream id, whatever
      the id stored inside it. */
  function UpdateContext(st: Store, streamID: string, c: StreamContext): (r: Store)
    requires Valid(st)
    ensures Valid(r)
    ensures Keys(r.contexts) == Keys(st.contexts) + {streamID}
    ensures forall id :: id != streamID ==> Get(r.contexts, id) == Get(st.contexts, id)
    ensures r.logs == st.logs && r.streams == st.streams && r.analyses == st.analyses
  {
    st.(contexts := Put(st.contexts, streamID, c))
  }

  /** A written context is what the next read returns, at any time. */
  lemma ContextRoundTrip(st: Store, streamID: string, c: StreamContext, now: Time)
    requires Valid(st)
    ensures GetContext(UpdateContext(st, streamID, c), streamID, now) == c
  {
  }

  /* ---------------------------------------------------------------------------
     Analyses
     --------------------------------------------------------------------------- */

  /** The key of a stored analysis: stream id, a colon, and the timestamp rendered
      as RFC 3339 to the second (given as `renderSec`). */
  function AnalysisKey(a: Analysis, renderSec: Time -> string): (k: string)
    ensures HasPrefix(k, a.streamID + ":")
  {
    a.streamID + ":" + renderSec(a.timestamp)
  }

  /** StoreAnalysis: one Put into the analysis bucket; a second analysis of the
      same stream in the same second overwrites the first. */
  function StoreAnalysis(st: Store, a: Analysis, renderSec: Time -> string): (r: Store)
    requires Valid(st)
    ensures Valid(r)
    ensures Get(r.analyses, AnalysisKey(a, renderSec)) == Some(a)
    ensures forall k :: k != AnalysisKey(a, renderSec) ==> Get(r.analyses, k) == Get(st.analyses, k)
    ensures r.logs == st.logs && r.streams == st.streams && r.contexts == st.contexts
  {
    st.(analyses := Put(st.analyses, AnalysisKey(a, renderSec), a))
  }

  /** What GetAnalysisHistory returns: the analyses whose key starts with the
      stream id and a colon, in key order, the first `limit` of them when positive. */
  function History(st: Store, streamID: string, limit: int): seq<Analysis> {
    TakeFirst(PrefixValues(st.analyses, streamID + ":"), limit)
  }

  /** GetAnalysisHistory: seek to the prefix and walk forwards while keys keep it. */
  method GetAnalysisHistory(st: Store, streamID: string, limit: int) returns (r: seq<Analysis>)
    requires Valid(st)
    ensures r == History(st, streamID, limit)
    ensures limit > 0 ==> |r| <= limit
  {
    r := Scan(st.analyses, streamID + ":", limit);
  }

  /** A stored analysis shows up in its stream's unlimited history. */
  lemma StoredAnalysisInHistory(st: Store, a: Analysis, renderSec: Time -> string)
    requires Valid(st)
    ensures a in History(StoreAnalysis(st, a, renderSec), a.streamID, 0)
  {
    var r := StoreAnalysis(st, a, renderSec);
    PrefixValuesHasGet(r.analyses, a.streamID + ":", AnalysisKey(a, renderSec));
  }

  /** The prefix test admits streams whose id extends `streamID` with a colon: an
      analysis of stream "api:v2" is in the history of stream "api". */
  lemma HistoryAdmitsOtherStream(a: Analysis, renderSec: Time -> string)
    requires a.streamID == "api:v2"
    ensures a in History(StoreAnalysis(Open(), a, renderSec), "api", 0)
    ensures a.streamID != "api"
  {
    var r := StoreAnalysis(Open(), a, renderSec);
    assert HasPrefix(AnalysisKey(a, renderSec), "api:") by {
      assert AnalysisKey(a, renderSec) == "api:" + ("v2:" + renderSec(a.timestamp));
    }
    PrefixValuesHasGet(r.analyses, "api:", AnalysisKey(a, renderSec));
  }

  /** The analyses of exactly one stream, in order. */
  function OfStream(s: seq<Analysis>, streamID: string): (r: seq<Analysis>)
    ensures forall x :: x in r <==> x in s && x.streamID == streamID
  {
    if |s| == 0 then []
    else (if s[0].streamID == streamID then [s[0]] else []) + OfStream(s[1..], streamID)
  }

  /** The history as evidently intended: the prefix scan, then only analyses that
      belong to the stream, the first `limit` of them when positive. */
  function OwnHistory(st: Store, streamID: string, limit: int): (r: seq<Analysis>)
    ensures forall x :: x in r ==> x.streamID == streamID
    ensures limit > 0 ==> |r| <= limit
  {
    TakeFirst(OfStream(PrefixValues(st.analyses, streamID + ":"), streamID), limit)
  }

  /** A stored analysis shows up in its own stream's unlimited corrected history,
      and never in another stream's. */
  lemma StoredAnalysisInOwnHistory(st: Store, a: Analysis, renderSec: Time -> string, other: string)
    requires Valid(st) && other != a.streamID
    ensures a in OwnHistory(StoreAnalysis(st, a, renderSec), a.streamID, 0)
    ensures a !in OwnHistory(StoreAnalysis(st, a, renderSec), other, 0)
  {
    StoredAnalysisInHistory(st, a, renderSec);
  }

  /* ---------------------------------------------------------------------------
     ListStreams
     --------------------------------------------------------------------------- */

  /** The one-line context summary of a stream: its latest analysis. */
  function LatestSummary(c: StreamContext): (s: Option<string>)
    ensures s.Some? <==> |c.analyses| > 0
    ensures s.Some? ==> var latest := c.analyses[|c.analyses| - 1];
      s.value == "Last: " + latest.summary + " (" + latest.severity + ")"
  {
    if |c.analyses| > 0 then
      var latest := c.analyses[|c.analyses| - 1];
      Some("Last: " + latest.summary + " (" + latest.severity + ")")
    else None
  }

  /** One listed stream: its stored metadata, with the log count of its bucket (if
      the bucket exists) as LogsPerMin and its latest analysis as ContextSummary. */
  function Listed(st: Store, e: Entry<Stream>): (s: Stream)
    requires Valid(st)
    ensures s.id == e.value.id && s.name == e.value.name && s.source == e.value.source
    ensures s.active == e.value.active && s.lastSeen == e.value.lastSeen
    ensures e.key in st.logs ==> s.logsPerMin == |st.logs[e.key]| <= RingCapacity
    ensures e.key !in st.logs ==> s.logsPerMin == e.value.logsPerMin
    ensures s.contextSummary ==
      match Get(st.contexts, e.key)
      case Some(c) => if |c.analyses| > 0 then LatestSummary(c).value else e.value.contextSummary
      case None => e.value.contextSummary
  {
    var s := if e.key in st.logs then e.value.(logsPerMin := |st.logs[e.key]|) else e.value;
    match Get(st.contexts, e.key)
    case Some(c) => (match LatestSummary(c) case Some(line) => s.(contextSummary := line) case None => s)
    case None => s
  }

  /** ListStreams: every stored stream, in key order, enriched. */
  function ListStreams(st: Store): (r: seq<Stream>)
    requires Valid(st)
    ensures |r| == |st.streams|
    ensures forall i :: 0 <= i < |r| ==> r[i] == Listed(st, st.streams[i])
  {
    seq(|st.streams|, i requires 0 <= i < |st.streams| => Listed(st, st.streams[i]))
  }

  /** Listing a store whose stream rows are TouchStream's result for `streamID`
      and which holds a bucket for that stream: the listing has the stream's row at
      index `i`, reporting the bucket's key count, never over RingCapacity, and the
      instant stamped on the row; a stream new to `prior` is listed as active under
      its own id. */
  lemma ListedAfterTouch(r: Store, prior: seq<Entry<Stream>>, streamID: string, seen: Time) returns (i: nat)
    requires Valid(r) && Sorted(prior)
    requires r.streams == TouchStream(prior, streamID, seen) && streamID in r.logs
    ensures i < |ListStreams(r)| && r.streams[i].key == streamID
    ensures ListStreams(r)[i].logsPerMin == |r.logs[streamID]| <= RingCapacity
    ensures ListStreams(r)[i].lastSeen == seen
    ensures Get(prior, streamID).None? ==> ListStreams(r)[i].id == streamID && ListStreams(r)[i].active
  {
    assert streamID in Keys(r.streams);
    i :| 0 <= i < |r.streams| && r.streams[i].key == streamID;
    GetAt(r.streams, i);
    assert ListStreams(r)[i] == Listed(r, r.streams[i]);
  }

  /** After a batch for `streamID`, the listing holds that stream's row as
      ListedAfterTouch describes, stamped with the batch's stream-row instant. */
  lemma ListedAfterStore(st: Store, streamID: string, logs: seq<LogLine>, streamSeen: Time, contextSeen: Time,
                         render: Time -> string)
    requires Valid(st)
    ensures var r := StoreLogs(st, streamID, logs, streamSeen, contextSeen, render);
      exists i :: 0 <= i < |ListStreams(r)| && r.streams[i].key == streamID
        && ListStreams(r)[i].logsPerMin == |r.logs[streamID]| <= RingCapacity
        && ListStreams(r)[i].lastSeen == streamSeen
        && (Get(st.streams, streamID).None? ==> ListStreams(r)[i].id == streamID && ListStreams(r)[i].active)
  {
    var r := StoreLogs(st, streamID, logs, streamSeen, contextSeen, render);
    var i := ListedAfterTouch(r, st.streams, streamID, streamSeen);
  }
}
