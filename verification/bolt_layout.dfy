/** The bucket layout of the bolt database and the row-level updates one StoreLogs
    transaction makes (internal/storage/bolt.go).

    The database holds four kinds of bucket: one logs bucket per stream (named
    "logs:" + stream id, kept here in a map from stream id), and the fixed "streams",
    "context" and "analysis" buckets. Every bucket is an ordered map (OrderedMap). */
module BoltLayout {
  import opened Results
  import opened Strings
  import opened OrderedMap
  import opened Models

  /** The ring-buffer capacity of a stream's logs bucket. */
  const RingCapacity: nat := 10000

  datatype Store = Store(
    logs: map<string, seq<Entry<LogLine>>>,
    streams: seq<Entry<Stream>>,
    contexts: seq<Entry<StreamContext>>,
    analyses: seq<Entry<Analysis>>)

  /** Every bucket is ordered and no logs bucket is over capacity. */
  predicate Valid(st: Store) {
    && (forall id :: id in st.logs ==> Sorted(st.logs[id]) && |st.logs[id]| <= RingCapacity)
    && Sorted(st.streams)
    && Sorted(st.contexts)
    && Sorted(st.analyses)
  }

  /** NewBoltStorage on a fresh file: the three fixed buckets, empty. */
  function Open(): (st: Store)
    ensures Valid(st)
    ensures st.logs == map[] && st.streams == [] && st.contexts == [] && st.analyses == []
  {
    Store(map[], [], [], [])
  }

  /** The logs bucket of a stream; an absent bucket reads as empty. */
  function LogBucket(st: Store, streamID: string): (b: seq<Entry<LogLine>>)
    requires Valid(st)
    ensures Sorted(b) && |b| <= RingCapacity
  {
    if streamID in st.logs then st.logs[streamID] else []
  }

  /* ---------------------------------------------------------------------------
     StoreLogs
     --------------------------------------------------------------------------- */

  /** Each record keyed by its rendered timestamp (RFC 3339 with nanoseconds, given
      as `render`). */
  function KeyedBatch(logs: seq<LogLine>, render: Time -> string): (items: seq<Entry<LogLine>>)
    ensures |items| == |logs|
    ensures forall i {:trigger items[i]} :: 0 <= i < |logs| ==> items[i] == Entry(render(logs[i].timestamp), logs[i])
  {
    if |logs| == 0 then []
    else [Entry(render(logs[0].timestamp), logs[0])] + KeyedBatch(logs[1..], render)
  }

  /** The logs bucket after the batch's Puts and before eviction: a record overwrites
      any earlier one with the same key, the last write winning. Its length is the
      KeyN the transaction reads. */
  function Inserted(st: Store, streamID: string, logs: seq<LogLine>, render: Time -> string): (b: seq<Entry<LogLine>>)
    requires Valid(st)
    ensures Sorted(b)
    ensures Keys(b) == Keys(LogBucket(st, streamID)) + Keys(KeyedBatch(logs, render))
    ensures |b| == |Keys(LogBucket(st, streamID)) + Keys(KeyedBatch(logs, render))|
    ensures forall k :: k !in Keys(KeyedBatch(logs, render)) ==> Get(b, k) == Get(LogBucket(st, streamID), k)
    ensures forall i {:trigger LastWithKey(KeyedBatch(logs, render), i)} :: LastWithKey(KeyedBatch(logs, render), i) ==> Get(b, render(logs[i].timestamp)) == Some(logs[i])
  {
    var b := PutAll(LogBucket(st, streamID), KeyedBatch(logs, render));
    SortedKeyCount(b);
    b
  }

  /** The ring buffer: once over capacity, delete the smallest keys down to it. */
  function Evict(b: seq<Entry<LogLine>>): (r: seq<Entry<LogLine>>)
    requires Sorted(b)
    ensures Sorted(r)
    ensures |r| == if |b| > RingCapacity then RingCapacity else |b|
    ensures |b| <= RingCapacity ==> r == b
    ensures forall k :: k in Keys(r) <==> k in Keys(b) && CountBelow(b, k) >= |b| - RingCapacity
    ensures forall k :: k in Keys(r) ==> Get(r, k) == Get(b, k)
  {
    if |b| > RingCapacity then DropSmallest(b, |b| - RingCapacity)
    else
      assert forall k :: k in Keys(b) ==> CountBelow(b, k) >= 0;
      b
  }

  /** Metadata for a stream seen for the first time. */
  function NewStream(streamID: string, now: Time): Stream {
    Stream(streamID, "", "", true, 0, now, "")
  }

  /** The stream row after a batch: created with Active set when missing,
      otherwise kept with only LastSeen refreshed. */
  function TouchStream(streams: seq<Entry<Stream>>, streamID: string, now: Time): (r: seq<Entry<Stream>>)
    requires Sorted(streams)
    ensures Sorted(r)
    ensures Get(streams, streamID).None? ==> Get(r, streamID) == Some(NewStream(streamID, now))
    ensures Get(streams, streamID).Some? ==> Get(r, streamID) == Some(Get(streams, streamID).value.(lastSeen := now))
    ensures forall id :: id != streamID ==> Get(r, id) == Get(streams, id)
  {
    match Get(streams, streamID)
    case Some(s) => Put(streams, streamID, s.(lastSeen := now))
    case None => Put(streams, streamID, NewStream(streamID, now))
  }

  /** The context row after a batch: TotalLogs overwritten with the key count,
      ErrorCount increased by the batch's errors. A missing row is not created. */
  function FoldContext(contexts: seq<Entry<StreamContext>>, streamID: string, total: nat, errors: nat, now: Time)
    : (r: seq<Entry<StreamContext>>)
    requires Sorted(contexts)
    ensures Sorted(r)
    ensures Get(contexts, streamID).None? ==> r == contexts
    ensures Get(contexts, streamID).Some? ==>
      var c := Get(contexts, streamID).value;
      Get(r, streamID) == Some(c.(totalLogs := total, errorCount := c.errorCount + errors, lastSeen := now))
    ensures forall id :: id != streamID ==> Get(r, id) == Get(contexts, id)
  {
    match Get(contexts, streamID)
    case Some(c) => Put(contexts, streamID, c.(totalLogs := total, errorCount := c.errorCount + errors, lastSeen := now))
    case None => contexts
  }

  /** The logs buckets with one stream's bucket replaced. */
  function SetBucket(logs: map<string, seq<Entry<LogLine>>>, streamID: string, b: seq<Entry<LogLine>>)
    : (r: map<string, seq<Entry<LogLine>>>)
    requires forall id :: id in logs ==> Sorted(logs[id]) && |logs[id]| <= RingCapacity
    requires Sorted(b) && |b| <= RingCapacity
    ensures forall id :: id in r ==> Sorted(r[id]) && |r[id]| <= RingCapacity
    ensures streamID in r && r[streamID] == b
    ensures forall id :: id != streamID ==> (id in r <==> id in logs)
    ensures forall id :: id != streamID && id in logs ==> r[id] == logs[id]
  {
    logs[streamID := b]
  }

}
