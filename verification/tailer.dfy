/** FileTailer.Start (internal/ingest/file.go) without the file: the lines in the
    file when it is first scanned, and the lines the second scan finds past the end
    it seeks to, are given, each with the instant it was read; the tailer's storage
    and hub calls come out as a sequence of effects in the order it makes them. The
    second scan stops at the first end of file and Start then returns, so
    `appended` is finite: the tailer does not keep following the file. */
module Tailer {
  import opened Results
  import opened Strings
  import opened Models
  import opened ParseLine

  /** The scanner's window over the existing file. */
  const WindowSize: nat := 10000

  /** How many of the newest window lines the backlog considers. */
  const BacklogSize: nat := 100

  /** A scanned line and the clock reading parseLine takes for it. */
  datatype SourceLine = SourceLine(text: string, readAt: Time)

  /** What the tailer asks of the rest of the program. */
  datatype Effect =
    | StoreBatch(streamID: string, logs: seq<LogLine>)
    | Publish(streamID: string, log: LogLine)

  /** The newest `n` elements of `s` (all of them when there are fewer). */
  function Newest<T>(s: seq<T>, n: nat): (r: seq<T>)
    ensures |r| == if |s| < n then |s| else n
    ensures r == s[|s| - |r|..]
  {
    if |s| <= n then s else s[|s| - n..]
  }

  /** The sliding window of the startup scan: append each line, and once the window
      is over its size drop its oldest line. */
  method SlidingWindow(lines: seq<SourceLine>) returns (window: seq<SourceLine>)
    ensures window == Newest(lines, WindowSize)
  {
    window := [];
    var i := 0;
    while i < |lines|
      invariant 0 <= i <= |lines|
      invariant window == Newest(lines[..i], WindowSize)
      decreases |lines| - i
    {
      assert lines[..i + 1] == lines[..i] + [lines[i]];
      window := window + [lines[i]];
      if |window| > WindowSize {
        window := window[1..];
      }
      i := i + 1;
    }
    assert lines[..i] == lines;
  }

  /** The records of the non-empty lines, in order. */
  function ParseNonEmpty(lines: seq<SourceLine>, streamID: string): (logs: seq<LogLine>)
    ensures |logs| <= |lines|
    ensures forall j :: 0 <= j < |logs| ==> logs[j].streamID == streamID && |logs[j].message| > 0
  {
    if |lines| == 0 then []
    else
      var front := ParseNonEmpty(lines[..|lines| - 1], streamID);
      var l := lines[|lines| - 1];
      if l.text == "" then front else front + [Parse(l.text, streamID, l.readAt)]
  }

  lemma {:induction false} ParseNonEmptyAppend(a: seq<SourceLine>, b: seq<SourceLine>, streamID: string)
    ensures ParseNonEmpty(a + b, streamID) == ParseNonEmpty(a, streamID) + ParseNonEmpty(b, streamID)
    decreases |b|
  {
    if |b| == 0 {
      assert a + b == a;
    } else {
      assert (a + b)[..|a + b| - 1] == a + b[..|b| - 1];
      ParseNonEmptyAppend(a, b[..|b| - 1], streamID);
    }
  }

  /** With no empty line among them, every line gives exactly one record, the one
      parseLine makes of it. */
  lemma {:induction false} ParseNonEmptyAll(lines: seq<SourceLine>, streamID: string)
    requires forall j :: 0 <= j < |lines| ==> lines[j].text != ""
    ensures |ParseNonEmpty(lines, streamID)| == |lines|
    ensures forall j :: 0 <= j < |lines| ==>
      ParseNonEmpty(lines, streamID)[j] == Parse(lines[j].text, streamID, lines[j].readAt)
    decreases |lines|
  {
    if |lines| > 0 {
      var front := lines[..|lines| - 1];
      var l := lines[|lines| - 1];
      ParseNonEmptyAll(front, streamID);
      var p := ParseNonEmpty(front, streamID);
      assert ParseNonEmpty(lines, streamID) == p + [Parse(l.text, streamID, l.readAt)];
      forall j | 0 <= j < |lines|
        ensures ParseNonEmpty(lines, streamID)[j] == Parse(lines[j].text, streamID, lines[j].readAt)
      {
        if j < |front| {
          assert front[j] == lines[j];
        }
      }
    }
  }

  /** The startup batch: of the window over the existing lines, the newest 100,
      empty ones skipped, each parsed. */
  function Backlog(existing: seq<SourceLine>, streamID: string): (logs: seq<LogLine>)
    ensures |logs| <= BacklogSize
  {
    ParseNonEmpty(Newest(Newest(existing, WindowSize), BacklogSize), streamID)
  }

  /** The window does not change which lines the backlog takes: they are simply the
      newest 100 lines of the file. */
  lemma BacklogOfNewest(existing: seq<SourceLine>, streamID: string)
    ensures Backlog(existing, streamID) == ParseNonEmpty(Newest(existing, BacklogSize), streamID)
  {
  }

  /** A short file with no empty line is taken whole, one record per line. */
  lemma ShortFileBacklog(existing: seq<SourceLine>, streamID: string)
    requires |existing| <= BacklogSize
    requires forall j :: 0 <= j < |existing| ==> existing[j].text != ""
    ensures |Backlog(existing, streamID)| == |existing|
    ensures forall j :: 0 <= j < |existing| ==>
      Backlog(existing, streamID)[j] == Parse(existing[j].text, streamID, existing[j].readAt)
  {
    ParseNonEmptyAll(existing, streamID);
  }

  /** One Publish per record, in order. */
  function Publishes(streamID: string, logs: seq<LogLine>): (r: seq<Effect>)
    ensures |r| == |logs|
    ensures forall j :: 0 <= j < |logs| ==> r[j] == Publish(streamID, logs[j])
  {
    seq(|logs|, j requires 0 <= j < |logs| => Publish(streamID, logs[j]))
  }

  /** The startup phase: nothing when the batch is empty, otherwise one StoreLogs
      call with the whole batch, then (with a hub) one broadcast per record. */
  function BacklogEffects(existing: seq<SourceLine>, streamID: string, hasHub: bool): (r: seq<Effect>)
  {
    var logs := Backlog(existing, streamID);
    if |logs| == 0 then []
    else [StoreBatch(streamID, logs)] + (if hasHub then Publishes(streamID, logs) else [])
  }

  /** The second scan, from the end of the file until the scanner first reaches end
      of file: each non-empty line it finds is stored as a batch of one and then
      (with a hub) broadcast. */
  function FollowEffects(appended: seq<SourceLine>, streamID: string, hasHub: bool): (r: seq<Effect>)
  {
    if |appended| == 0 then []
    else
      var front := FollowEffects(appended[..|appended| - 1], streamID, hasHub);
      var l := appended[|appended| - 1];
      if l.text == "" then front
      else
        var log := Parse(l.text, streamID, l.readAt);
        front + [StoreBatch(streamID, [log])] + (if hasHub then [Publish(streamID, log)] else [])
  }

  /** Start: failing to open the file is an error before any effect, wrapping the
      open error's text; otherwise the startup batch and then the lines of the
      second scan, after which Start returns. An empty file has no backlog.
      `openError` is what opening the file reports, None when it succeeds. */
  function Start(openError: Option<string>, existing: seq<SourceLine>, appended: seq<SourceLine>, streamID: string,
                 hasHub: bool)
    : (r: Result<seq<Effect>>)
    ensures openError.Some? <==> r.Err?
    ensures r.Err? ==> HasPrefix(r.message, "failed to open file: ")
    ensures r.Err? ==>
      && openError.Some?
      && |"failed to open file: "| <= |r.message|
      && r.message[|"failed to open file: "|..] == openError.value
    ensures r.Ok? ==> r.value == BacklogEffects(existing, streamID, hasHub) + FollowEffects(appended, streamID, hasHub)
  {
    match openError
    case Some(e) => Err("failed to open file: " + e)
    case None => Ok(BacklogEffects(existing, streamID, hasHub) + FollowEffects(appended, streamID, hasHub))
  }

  /* ---------------------------------------------------------------------------
     What the effects amount to
     --------------------------------------------------------------------------- */

  /** The records handed to StoreLogs, batch after batch. */
  function Stored(effects: seq<Effect>): seq<LogLine> {
    if |effects| == 0 then []
    else
      var e := effects[|effects| - 1];
      Stored(effects[..|effects| - 1]) + (if e.StoreBatch? then e.logs else [])
  }

  /** The records broadcast, in order. */
  function Published(effects: seq<Effect>): seq<LogLine> {
    if |effects| == 0 then []
    else
      var e := effects[|effects| - 1];
      Published(effects[..|effects| - 1]) + (if e.Publish? then [e.log] else [])
  }

  lemma {:induction false} StoredAppend(a: seq<Effect>, b: seq<Effect>)
    ensures Stored(a + b) == Stored(a) + Stored(b)
    decreases |b|
  {
    if |b| == 0 {
      assert a + b == a;
    } else {
      assert (a + b)[..|a + b| - 1] == a + b[..|b| - 1];
      StoredAppend(a, b[..|b| - 1]);
    }
  }

  lemma {:induction false} PublishedAppend(a: seq<Effect>, b: seq<Effect>)
    ensures Published(a + b) == Published(a) + Published(b)
    decreases |b|
  {
    if |b| == 0 {
      assert a + b == a;
    } else {
      assert (a + b)[..|a + b| - 1] == a + b[..|b| - 1];
      PublishedAppend(a, b[..|b| - 1]);
    }
  }

  lemma {:induction false} PublishesOnlyPublish(streamID: string, logs: seq<LogLine>)
    ensures Stored(Publishes(streamID, logs)) == []
    ensures Published(Publishes(streamID, logs)) == logs
    decreases |logs|
  {
    if |logs| > 0 {
      var n := |logs|;
      assert Publishes(streamID, logs)[..n - 1] == Publishes(streamID, logs[..n - 1]);
      PublishesOnlyPublish(streamID, logs[..n - 1]);
      assert logs == logs[..n - 1] + [logs[n - 1]];
    }
  }

  /** The startup batch is stored in a single call that comes first, and then
      broadcast record by record in the same order. */
  lemma BacklogStoredOnceThenPublished(existing: seq<SourceLine>, streamID: string, hasHub: bool)
    requires |Backlog(existing, streamID)| > 0
    ensures var r := BacklogEffects(existing, streamID, hasHub);
      var logs := Backlog(existing, streamID);
      && r[0] == StoreBatch(streamID, logs)
      && (forall j :: 1 <= j < |r| ==> r[j].Publish?)
      && Stored(r) == logs
      && Published(r) == (if hasHub then logs else [])
  {
    var logs := Backlog(existing, streamID);
    var pubs := if hasHub then Publishes(streamID, logs) else [];
    PublishesOnlyPublish(streamID, logs);
    StoredAppend([StoreBatch(streamID, logs)], pubs);
    PublishedAppend([StoreBatch(streamID, logs)], pubs);
    assert Stored([StoreBatch(streamID, logs)]) == [] + logs;
    assert Published([StoreBatch(streamID, logs)]) == [];
  }

  /** The effects of one line of the second scan: its record is stored, then published. */
  lemma FollowLine(log: LogLine, streamID: string, hasHub: bool)
    ensures var tail := [StoreBatch(streamID, [log])] + (if hasHub then [Publish(streamID, log)] else []);
      Stored(tail) == [log] && Published(tail) == (if hasHub then [log] else [])
  {
    var st := [StoreBatch(streamID, [log])];
    assert Stored(st) == [] + [log] by {
      assert st[..0] == [];
    }
    assert Published(st) == [] by {
      assert st[..0] == [];
    }
    if hasHub {
      var pb := [Publish(streamID, log)];
      assert Published(pb) == [] + [log] && Stored(pb) == [] by {
        assert pb[..0] == [];
      }
      StoredAppend(st, pb);
      PublishedAppend(st, pb);
    } else {
      assert st + [] == st;
    }
  }

  /** In the second scan the stored records are exactly the parsed non-empty lines,
      in order, and with a hub each one is broadcast right after it is stored. */
  lemma {:induction false} FollowStoresEachLine(appended: seq<SourceLine>, streamID: string, hasHub: bool)
    ensures Stored(FollowEffects(appended, streamID, hasHub)) == ParseNonEmpty(appended, streamID)
    ensures Published(FollowEffects(appended, streamID, hasHub)) == (if hasHub then ParseNonEmpty(appended, streamID) else [])
    decreases |appended|
  {
    if |appended| > 0 {
      var front := appended[..|appended| - 1];
      FollowStoresEachLine(front, streamID, hasHub);
      var l := appended[|appended| - 1];
      if l.text != "" {
        var log := Parse(l.text, streamID, l.readAt);
        var pre := FollowEffects(front, streamID, hasHub);
        var tail := [StoreBatch(streamID, [log])] + (if hasHub then [Publish(streamID, log)] else []);
        assert FollowEffects(appended, streamID, hasHub) == pre + tail;
        FollowLine(log, streamID, hasHub);
        StoredAppend(pre, tail);
        PublishedAppend(pre, tail);
      }
    }
  }

  /** With a hub, everything the tailer stores is broadcast, in the order stored. */
  lemma StartPublishesWhatItStores(existing: seq<SourceLine>, appended: seq<SourceLine>, streamID: string)
    requires Start(None, existing, appended, streamID, true).Ok?
    ensures var r := Start(None, existing, appended, streamID, true).value;
      Published(r) == Stored(r)
  {
    var b := BacklogEffects(existing, streamID, true);
    var f := FollowEffects(appended, streamID, true);
    if |Backlog(existing, streamID)| > 0 {
      BacklogStoredOnceThenPublished(existing, streamID, true);
    }
    FollowStoresEachLine(appended, streamID, true);
    StoredAppend(b, f);
    PublishedAppend(b, f);
  }
}
