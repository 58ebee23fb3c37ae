/** What a log query returns (BoltStorage.GetLogs in internal/storage/bolt.go),
    stated over the records of a logs bucket in key order, independently of the
    backwards cursor walk that computes it. */
module LogQuery {
  import opened Models

  /** Go's `contains` helper: a linear scan of a slice of strings. */
  function SliceContains(slice: seq<string>, item: string): (b: bool)
    ensures b <==> item in slice
  {
    if |slice| == 0 then false
    else slice[0] == item || SliceContains(slice[1..], item)
  }

  /** A record is recent enough: no lower bound is set, or it is not before it. */
  predicate SinceOk(opts: GetLogsOptions, log: LogLine) {
    opts.since == ZeroTime || !(log.timestamp < opts.since)
  }

  /** A record's level is admitted: no level list is given, or it lists the level. */
  predicate LevelOk(opts: GetLogsOptions, log: LogLine) {
    |opts.levels| == 0 || SliceContains(opts.levels, log.level)
  }

  /** Where the newest unbroken run of recent-enough records starts: every record
      from here to the end passes the lower bound, and the one just before fails it. */
  function RunStart(vals: seq<LogLine>, opts: GetLogsOptions): (r: nat)
    ensures r <= |vals|
    ensures forall j :: r <= j < |vals| ==> SinceOk(opts, vals[j])
    ensures r > 0 ==> !SinceOk(opts, vals[r - 1])
  {
    if |vals| == 0 then 0
    else if !SinceOk(opts, vals[|vals| - 1]) then |vals|
    else RunStart(vals[..|vals| - 1], opts)
  }

  /** The records whose level is admitted, in their original order. */
  function LevelFilter(vals: seq<LogLine>, opts: GetLogsOptions): (r: seq<LogLine>)
    ensures |r| <= |vals|
    ensures forall j :: 0 <= j < |r| ==> LevelOk(opts, r[j]) && r[j] in vals
  {
    if |vals| == 0 then []
    else LevelFilter(vals[..|vals| - 1], opts) + (if LevelOk(opts, vals[|vals| - 1]) then [vals[|vals| - 1]] else [])
  }

  /** Filtering distributes over concatenation. */
  lemma {:induction false} LevelFilterAppend(a: seq<LogLine>, b: seq<LogLine>, opts: GetLogsOptions)
    ensures LevelFilter(a + b, opts) == LevelFilter(a, opts) + LevelFilter(b, opts)
    decreases |b|
  {
    if |b| == 0 {
      assert a + b == a;
    } else {
      assert (a + b)[..|a + b| - 1] == a + b[..|b| - 1];
      LevelFilterAppend(a, b[..|b| - 1], opts);
    }
  }

  /** The newest `limit` elements: all of them when `limit` is 0, none when negative. */
  function LastN(s: seq<LogLine>, limit: int): (r: seq<LogLine>)
    ensures limit == 0 ==> r == s
    ensures limit < 0 ==> r == []
    ensures limit > 0 ==> |r| == if |s| < limit then |s| else limit
    ensures |r| <= |s| && r == s[|s| - |r|..]
  {
    if limit == 0 then s
    else if limit < 0 then []
    else if |s| <= limit then s
    else s[|s| - limit..]
  }

  /** The answer to a query over a bucket's records in key order: among the newest
      run of records not older than `since`, those with an admitted level, of which
      the newest `limit` are kept, oldest first. */
  function Query(vals: seq<LogLine>, opts: GetLogsOptions): seq<LogLine> {
    LastN(LevelFilter(vals[RunStart(vals, opts)..], opts), opts.limit)
  }

  /** Every record of the answer comes from the bucket, passes both filters, and there
      are no more of them than a positive limit allows. */
  lemma QuerySound(vals: seq<LogLine>, opts: GetLogsOptions)
    ensures opts.limit > 0 ==> |Query(vals, opts)| <= opts.limit
    ensures opts.limit < 0 ==> Query(vals, opts) == []
    ensures forall j :: 0 <= j < |Query(vals, opts)| ==>
      var log := Query(vals, opts)[j];
      log in vals && LevelOk(opts, log) && SinceOk(opts, log)
  {
    var s := RunStart(vals, opts);
    var f := LevelFilter(vals[s..], opts);
    var q := Query(vals, opts);
    forall j | 0 <= j < |q|
      ensures q[j] in vals && LevelOk(opts, q[j]) && SinceOk(opts, q[j])
    {
      assert q[j] == f[|f| - |q| + j];
      assert f[|f| - |q| + j] in vals[s..];
    }
  }

  /** With no limit, no bound and no level list, a query returns the whole bucket. */
  lemma QueryUnfiltered(vals: seq<LogLine>)
    ensures Query(vals, GetLogsOptions(0, ZeroTime, [])) == vals
  {
    var opts := GetLogsOptions(0, ZeroTime, []);
    assert RunStart(vals, opts) == 0;
    LevelFilterAll(vals, opts);
  }

  lemma {:induction false} LevelFilterAll(vals: seq<LogLine>, opts: GetLogsOptions)
    requires |opts.levels| == 0
    ensures LevelFilter(vals, opts) == vals
    decreases |vals|
  {
    if |vals| > 0 {
      LevelFilterAll(vals[..|vals| - 1], opts);
      assert vals == vals[..|vals| - 1] + [vals[|vals| - 1]];
    }
  }

  lemma LevelFilterCons(log: LogLine, rest: seq<LogLine>, opts: GetLogsOptions)
    ensures LevelFilter([log] + rest, opts) == (if LevelOk(opts, log) then [log] else []) + LevelFilter(rest, opts)
  {
    LevelFilterAppend([log], rest, opts);
    assert [log][..0] == [];
  }

  /** Where the backwards walk may stop (at the oldest record, at a record older than
      `since`, or with `limit` records collected), what it has collected is the answer. */
  lemma ScanExit(vals: seq<LogLine>, opts: GetLogsOptions, i: nat, logs: seq<LogLine>)
    requires i <= |vals|
    requires forall j :: i <= j < |vals| ==> SinceOk(opts, vals[j])
    requires logs == LevelFilter(vals[i..], opts)
    requires opts.limit > 0 ==> |logs| <= opts.limit
    requires opts.limit < 0 ==> i == |vals|
    requires i == 0 || !SinceOk(opts, vals[i - 1]) || (opts.limit > 0 && |logs| == opts.limit) || opts.limit < 0
    ensures logs == Query(vals, opts)
  {
    var start := RunStart(vals, opts);
    assert start <= i;
    assert vals[start..] == vals[start..i] + vals[i..];
    LevelFilterAppend(vals[start..i], vals[i..], opts);
    if i > 0 && !SinceOk(opts, vals[i - 1]) {
      assert start == i;
    }
  }

  /** The cursor walk of GetLogs: from the newest record backwards, stop at the
      first record older than `since`, skip records of unlisted levels, stop once
      `limit` records are collected, and return them oldest first. */
  method ScanBackwards(vals: seq<LogLine>, opts: GetLogsOptions) returns (logs: seq<LogLine>)
    ensures logs == Query(vals, opts)
  {
    logs := [];
    var count := 0;
    var i := |vals|;
    while i > 0 && (opts.limit == 0 || count < opts.limit)
      invariant 0 <= i <= |vals|
      invariant forall j :: i <= j < |vals| ==> SinceOk(opts, vals[j])
      invariant logs == LevelFilter(vals[i..], opts) && count == |logs|
      invariant opts.limit > 0 ==> count <= opts.limit
      invariant opts.limit < 0 ==> i == |vals|
      decreases i
    {
      var log := vals[i - 1];
      if !SinceOk(opts, log) {
        break;
      }
      assert vals[i - 1..] == [log] + vals[i..];
      LevelFilterCons(log, vals[i..], opts);
      if LevelOk(opts, log) {
        logs := [log] + logs;
        count := count + 1;
      }
      i := i - 1;
    }
    ScanExit(vals, opts, i, logs);
  }
}
