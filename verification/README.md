# LogVoyant core, modelled in Dafny

LogVoyant tails log files into per-stream buckets of a bolt database. Its HTTP
server lets a user read those logs, analyse the newest hundred, and mark earlier
analyses resolved. Each analysis comes from an LLM when an API key is configured,
and otherwise from a fixed keyword classifier. Live log lines are also pushed to
WebSocket subscribers.

This project models the sequential logic of that core as pure functions over
immutable datatypes, and proves what that logic promises:

- **bolt storage** (`bolt_layout.dfy`, `bolt.dfy`, `log_query.dfy`, `prefix_scan.dfy`, `ordered_map.dfy`).
  - Each bucket is a strictly sorted association list.
  - StoreLogs is one atomic state transition: insert with last write winning, ring-buffer eviction down to 10,000 keys, then the stream and context rows.
  - GetLogs is a backwards cursor walk, proved equal to a declarative query.
  - GetAnalysisHistory is a seek-and-scan, proved equal to a prefix filter.
- **fallback classifier** (`fallback.dfy`): the pattern table, keyword scoring and the choice of the winning pattern.
- **line parser and tailer** (`parse_line.dfy`, `tailer.dfy`).
  - The two regular expressions become explicit leftmost scans. Timestamps are parsed with Go's range checks on the proleptic Gregorian calendar.
  - Start becomes a function from the outcome of opening the file (the open error's text, if any) and the file's lines to the ordered list of StoreLogs and broadcast calls it makes.
- **analyzer and LLM reply handling** (`analyzer.dfy`, `llm.dfy`): the choice between LLM and fallback, the prompt's sections, and how the reply is checked and cleaned.
- **handlers** (`handlers.dfy`): the logs limit (with Go's `strconv.Atoi`), resolving an analysis, and recording an analysis in the stream's context.
- **WebSocket hub** (`hub.dfy`): the client registry as a map from stream id to a set of connections.

Shared pieces live in their own modules:

- `results.dfy`: Option and Result.
- `strings.dfy`: Go's byte-order string comparison, prefix and suffix operations, TrimSpace, Trim, case mapping, Contains and decimal rendering.
- `models.dfy`: the records of `internal/storage/models.go`.

Time is an integer count of nanoseconds since the Unix epoch. `ZeroTime` is Go's zero `time.Time` (January 1 of year 1).

Several things the program takes from outside become parameters: clock readings, the RFC 3339 renderings used as keys, the LLM call, JSON decoding of its reply, and which WebSocket writes fail.

## Model

| member | source | states |
|---|---|---|
| BoltLayout.Open | internal/storage/bolt.go:28-37 | a fresh database has the three fixed buckets, all empty, and satisfies the store invariant (sorted buckets, no logs bucket over capacity) |
| BoltLayout.KeyedBatch | internal/storage/bolt.go:59-60 | every record of a batch is keyed by its own rendered timestamp, in batch order |
| BoltLayout.Inserted | internal/storage/bolt.go:59-67 | after the batch's Puts the bucket is sorted; its keys are the old keys plus the batch's keys, and its size is the size of that union; keys outside the batch keep their record; the last record of the batch with a given key is the one stored (last write wins) |
| BoltLayout.Evict | internal/storage/bolt.go:74-84 | eviction leaves min(KeyN, 10000) keys; exactly the keys with at least KeyN-10000 smaller keys survive, so the KeyN-10000 smallest are the ones deleted; survivors keep their records; nothing happens at or under capacity |
| BoltLayout.TouchStream | internal/storage/bolt.go:86-127 | a missing stream row is created with ID = stream id, Active set and LastSeen = now; an existing row keeps every field but LastSeen; other rows are untouched |
| BoltLayout.FoldContext | internal/storage/bolt.go:104-122 | an existing context row gets TotalLogs overwritten with the key count, ErrorCount increased by the batch's error count, and LastSeen refreshed; a missing row is not created; other rows are untouched |
| BoltLayout.SetBucket | internal/storage/bolt.go:52-53 | replacing one stream's logs bucket keeps every bucket sorted and within capacity and leaves every other stream's bucket as it was |
| BoltStore.StoreLogs | internal/storage/bolt.go:50-132 | one StoreLogs transaction keeps the store invariant; the stream's bucket is evicted(inserted(batch)) and at most 10,000 keys; other buckets are untouched; the stream and context rows are updated as TouchStream and FoldContext state, with TotalLogs taken before eviction; the stream row gets the first clock reading and the context row the second, as the program reads the clock once for each; the analysis bucket is untouched |
| BoltStore.StoreAll | internal/storage/bolt.go:74-84 | after any sequence of StoreLogs calls, on any streams, the store keeps its invariant and every logs bucket holds at most 10,000 records |
| Models.CountErrors | internal/storage/bolt.go:69-71 | the batch's error count is at most its length, and it is zero exactly when no record has level ERROR or FATAL |
| Models.CountErrorsAppend | internal/analyzer/fallback.go:134-137 | error counts add up over concatenated batches |
| LogQuery.SliceContains | internal/storage/bolt.go:328-335 | `contains` is true exactly when the item is in the slice |
| LogQuery.RunStart | internal/storage/bolt.go:155-157 | the walk stops at the newest record older than Since: every record after that point passes the Since bound, and the record just before it fails it |
| LogQuery.LevelFilter | internal/storage/bolt.go:158-160 | the level filter keeps only records whose level is admitted, all taken from the input, never more than the input |
| LogQuery.LevelFilterAppend | internal/storage/bolt.go:158-162 | filtering distributes over concatenation, so records keep their relative order |
| LogQuery.LastN | internal/storage/bolt.go:148 | limit 0 keeps everything, a negative limit keeps nothing, a positive limit keeps the newest min(limit, n), always a suffix |
| LogQuery.QuerySound | internal/storage/bolt.go:148-163 | every returned record is in the bucket, has an admitted level and is not older than Since; at most Limit records come back when Limit > 0, and none when Limit < 0 |
| LogQuery.QueryUnfiltered | internal/storage/bolt.go:148-163 | with no limit, no Since and no levels, GetLogs returns the whole bucket in ascending key order |
| LogQuery.ScanExit | internal/storage/bolt.go:148-164 | at every point where the cursor walk may stop (first record reached, a record older than Since, or Limit records collected), what it has collected is the query's answer |
| LogQuery.ScanBackwards | internal/storage/bolt.go:144-164 | the newest-to-oldest walk with break on Since, skip on level, stop at Limit, and prepend returns exactly the declarative query, in ascending key order |
| BoltStore.GetLogs | internal/storage/bolt.go:134-170 | GetLogs answers the query over the stream's bucket in key order, and an unknown stream gives an empty result rather than an error |
| BoltStore.GetStream | internal/storage/bolt.go:220-241 | GetStream succeeds exactly when the stream has a row, returning that row; otherwise the error is "stream not found" |
| BoltStore.UpdateStream | internal/storage/bolt.go:243-252 | metadata is written under its own ID; other rows and buckets are untouched |
| BoltStore.StreamRoundTrip | internal/storage/bolt.go:229-250 | reading metadata back by its ID after writing it gives it back |
| BoltStore.GetContext | internal/storage/bolt.go:254-274 | a stored context is returned as is; on first contact the context has StreamID set, FirstSeen = now, no analyses, no common errors and zero counts, and it is not an error |
| BoltStore.UpdateContext | internal/storage/bolt.go:276-285 | a context is written under the given stream id, whatever id it carries; other rows and buckets are untouched |
| BoltStore.ContextRoundTrip | internal/storage/bolt.go:259-283 | a context that was written is what the next GetContext returns |
| BoltStore.AnalysisKey | internal/storage/bolt.go:290 | an analysis key always begins with the stream id and a colon |
| BoltStore.StoreAnalysis | internal/storage/bolt.go:287-297 | one Put under that key, so an analysis of the same stream in the same second replaces the earlier one; every other key is untouched |
| PrefixScan.SeekIndex | internal/storage/bolt.go:308 | Seek lands on the first key not below the prefix |
| PrefixScan.TakeFirst | internal/storage/bolt.go:309-311 | a positive limit keeps the first min(limit, n) values, and any other limit keeps all of them |
| PrefixScan.AfterRunNoPrefix | internal/storage/bolt.go:308 | once a key after the seek position lacks the prefix, no later key has it, so stopping the walk there loses nothing |
| PrefixScan.Scan | internal/storage/bolt.go:304-319 | seek, then walk forward while keys keep the prefix and stop at a positive limit: this returns exactly the first `limit` values whose key has the prefix, in key order |
| PrefixScan.PrefixValuesHasGet | internal/storage/bolt.go:305-317 | a value stored under a key with the prefix is among the scanned values |
| BoltStore.GetAnalysisHistory | internal/storage/bolt.go:299-325 | the history is the first `limit` analyses whose key begins with id + ":", in key order, never more than a positive limit |
| BoltStore.StoredAnalysisInHistory | internal/storage/bolt.go:287-319 | a stored analysis appears in its own stream's unlimited history |
| BoltStore.HistoryAdmitsOtherStream | internal/storage/bolt.go:305-308 | an analysis of stream "api:v2" appears in the history of stream "api" |
| BoltStore.OfStream | internal/storage/bolt.go:313-317 | keeps exactly the analyses whose StreamID is the stream |
| BoltStore.OwnHistory | internal/storage/bolt.go:299-325 | the history restricted to the stream's own analyses, at most a positive limit |
| BoltStore.StoredAnalysisInOwnHistory | internal/storage/bolt.go:287-319 | a stored analysis is in its own stream's corrected history and in no other stream's |
| BoltStore.LatestSummary | internal/storage/bolt.go:204-207 | a context summary exists exactly when there are analyses, and it is "Last: " + the latest summary + " (" + its severity + ")" |
| BoltStore.Listed | internal/storage/bolt.go:183-213 | a listed stream keeps its stored identity fields; LogsPerMin is its bucket's key count (at most 10,000) when the bucket exists; ContextSummary quotes the latest analysis when there is one |
| BoltStore.ListStreams | internal/storage/bolt.go:172-218 | one entry per stored stream, in key order, each enriched as Listed states |
| BoltStore.ListedAfterTouch | internal/storage/bolt.go:89-210 | in a store whose stream rows TouchStream just updated and which has the stream's bucket, the listing holds that stream's row: its LogsPerMin is the bucket's key count, at most 10,000, and its LastSeen is the stamped instant; a stream that was new is listed active under its own id |
| BoltStore.ListedAfterStore | internal/storage/bolt.go:89-210 | after a batch for a stream, the listing holds that stream's row: its LogsPerMin is the bucket's key count, at most 10,000, and its LastSeen is the instant the batch stamped; a stream seen for the first time is listed active under its own id |
| Fallback.PatternsWellFormed | internal/analyzer/fallback.go:24-125 | every pattern in the table has a first keyword to name and a severity among P0 to P3 |
| Strings.LowerChar | internal/analyzer/fallback.go:138 | a character lower-cases to an ASCII letter exactly when it is an ASCII letter, U+0130 (capital I with dot above) or U+212A (Kelvin sign), as with unicode.ToLower; no result is an upper-case ASCII letter |
| Fallback.Messages | internal/analyzer/fallback.go:134-139 | every message is taken, lower-cased and in order, whatever its level |
| Fallback.KeywordsAscii | internal/analyzer/fallback.go:24-125 | every keyword of the table is ASCII text, so only characters that lower-case to ASCII can take part in a keyword hit |
| Fallback.DottedCapitalIHitsDisk | internal/analyzer/fallback.go:138-150 | a message "DİSK" hits the keyword "disk", as Go's strings.ToLower makes it "disk" |
| Fallback.KeywordHit | internal/analyzer/fallback.go:149-154 | a keyword hits exactly when some lower-cased message contains the lower-cased keyword |
| Fallback.Score | internal/analyzer/fallback.go:147-155 | a score never exceeds the pattern's keyword count; it is 0 exactly when no keyword hits and full exactly when every keyword hits |
| Fallback.Best | internal/analyzer/fallback.go:142-160 | no pattern is chosen exactly when every score is 0; a chosen pattern has a positive score strictly above every earlier one and at least every later one, so ties keep the earlier pattern |
| Fallback.RelatedNote | internal/analyzer/fallback.go:184-190 | the note is set exactly when the latest stored summary exists and is unresolved, and then it quotes that summary |
| Fallback.Analyze | internal/analyzer/fallback.go:129-193 | the severity is always P0 to P3; a chosen pattern's root cause, fixes and severity are copied and the summary names its first keyword and the error count; with no match the analysis is P3 with the fixed generic texts; stream id and timestamp are left unset |
| Fallback.MatchIgnoresLevels | internal/analyzer/fallback.go:134-150 | batches with the same messages settle on the same pattern, whatever their levels |
| Fallback.EmptyBatchIsGeneric | internal/analyzer/fallback.go:163-181 | a batch with no messages yields the generic P3 analysis |
| ParseLine.NameAt | internal/ingest/file.go:136 | a bare level name occurs at a position exactly when one is returned, and it is a level name |
| ParseLine.LevelTokenAt | internal/ingest/file.go:136 | a matched token occurs at the position and is a level name, bare or bracketed; the bracketed form wins when it is there |
| ParseLine.FirstLevelAt | internal/ingest/file.go:137 | the leftmost token: no token starts before it, and one starts at it |
| ParseLine.FindLevel | internal/ingest/file.go:136-137 | there is no match exactly when no position starts a token; a match is a level token |
| ParseLine.StripLevelsNone | internal/ingest/file.go:153 | with no level token anywhere, removing tokens changes nothing |
| ParseLine.TokenLevel | internal/ingest/file.go:138 | upper-casing and trimming brackets turns any matched token into the level name inside it |
| ParseLine.FirstTimestampAt | internal/ingest/file.go:142-143 | the leftmost timestamp-shaped text: none starts before it, and one starts at it |
| ParseLine.FindTimestamp | internal/ingest/file.go:142-143 | there is no match exactly when no position starts a timestamp shape; a match is 19 characters of that shape |
| ParseLine.StripTimestampsNone | internal/ingest/file.go:154 | with no timestamp anywhere, removing timestamps changes nothing |
| ParseLine.DaysIn | internal/ingest/file.go:144-147 | every month has 28 to 31 days |
| ParseLine.MarchYearLength | internal/ingest/file.go:144-147 | a year counted from March 1 has 366 days exactly when the February that ends it is a leap February by the Gregorian rule |
| ParseLine.MonthLengths | internal/ingest/file.go:144-147 | the day after the last day DaysIn allows in a month is the first of the next month on the calendar Instant uses, and February has 29 days exactly in leap years |
| ParseLine.CalendarAnchors | internal/ingest/file.go:144-147 | the calendar maps 1970-01-01 to instant 0 and 0001-01-01 to Go's zero time |
| ParseLine.ParseTimestamp | internal/ingest/file.go:143-149 | a timestamp-shaped text parses exactly when its month, day (for that month and year), hour, minute and second are in range |
| ParseLine.PadValue | internal/ingest/file.go:144 | reading back zero-padded digits gives the number they were made from |
| ParseLine.ParseFormatted | internal/ingest/file.go:143-147 | parsing the text of a valid date and time gives back its instant |
| ParseLine.LineLevel | internal/ingest/file.go:128-139 | the level is INFO without a token, otherwise the leftmost token's name; it is always a level name |
| ParseLine.LineTime | internal/ingest/file.go:127-149 | the timestamp is the first timestamp match's instant when it parses, otherwise the time the line was read |
| ParseLine.LineMessage | internal/ingest/file.go:129-158 | the message is the line with tokens and then timestamps removed and trimmed, or the raw line when nothing is left, so it is non-empty whenever the line is |
| ParseLine.Parse | internal/ingest/file.go:125-161 | Raw is the line, StreamID the tailer's id, Labels empty, Level a level name, and the message is non-empty for a non-empty line |
| ParseLine.PlainLine | internal/ingest/file.go:125-161 | a line with no token and no timestamp is INFO, timestamped when read, with its trimmed text as message |
| Tailer.Newest | internal/ingest/file.go:66-70 | keeps the newest min(n, len) elements, as a suffix |
| Tailer.SlidingWindow | internal/ingest/file.go:54-62 | the append-then-drop-oldest loop leaves exactly the newest 10,000 lines |
| Tailer.ParseNonEmpty | internal/ingest/file.go:72-79 | empty lines are skipped and each other line gives one record of the stream with a non-empty message |
| Tailer.ParseNonEmptyAppend | internal/ingest/file.go:72-79 | parsing distributes over concatenated lines, so order is kept |
| Tailer.ParseNonEmptyAll | internal/ingest/file.go:72-79 | with no empty line, record j is parseLine of line j |
| Tailer.Backlog | internal/ingest/file.go:66-79 | the startup batch has at most 100 records |
| Tailer.ShortFileBacklog | internal/ingest/file.go:54-79 | a file of at most 100 non-empty lines is taken whole, record j from line j |
| Tailer.Publishes | internal/ingest/file.go:88-92 | one broadcast per record, in order |
| Tailer.Start | internal/ingest/file.go:37-121 | failing to open the file gives "failed to open file: " followed by the open error's text, with no effect, and only then is it an error; otherwise the backlog effects, then the effects of the second scan up to the first end of file, after which Start returns |
| Tailer.BacklogStoredOnceThenPublished | internal/ingest/file.go:81-92 | the startup batch is stored in one StoreLogs call that comes first, and everything after it is a broadcast of that batch, in the same order (none without a hub) |
| Tailer.FollowStoresEachLine | internal/ingest/file.go:101-119 | in the second scan, which ends at the first end of file, the stored records are the parsed non-empty lines in order; each is stored as its own batch, and with a hub each is broadcast |
| Tailer.StartPublishesWhatItStores | internal/ingest/file.go:81-119 | with a hub, the records broadcast are exactly the records stored, in the same order |
| Hub.Register | internal/server/websocket.go:51-57 | registering adds the connection to its stream's set, creating the set if needed; other streams are untouched; no empty set appears |
| Hub.Unregister | internal/server/websocket.go:59-70 | unregistering removes the connection from its stream only; an unknown stream or connection changes nothing; an emptied set is deleted, so no stream maps to an empty set |
| Hub.RegisterIdempotent | internal/server/websocket.go:56 | registering the same connection twice is registering it once |
| Hub.UnregisterUndoesRegister | internal/server/websocket.go:51-70 | unregistering a connection just registered restores the registry |
| Hub.SameSubscribers | internal/server/websocket.go:53-67 | two registries that keep the invariant and agree on every stream's subscribers are equal |
| Hub.Broadcast | internal/server/websocket.go:72-83 | the record is written to exactly the stream's subscribers whose write does not fail; each failed connection is unregistered from that stream; other streams are untouched |
| Hub.BroadcastWithoutFailures | internal/server/websocket.go:72-83 | when no write fails, every subscriber receives the record and the registry is unchanged |
| Hub.UnregisterAllDrops | internal/server/websocket.go:59-70 | unregistering a list of connections one by one removes exactly those connections |
| Hub.BroadcastIsUnregisters | internal/server/websocket.go:77-82 | the registry after a broadcast is the one that unregistering each failed connection in turn produces |
| Llm.Clean | internal/analyzer/llm.go:92-97 | the cleaned content has no whitespace at either end; content with no fence at either end is only trimmed |
| Llm.CleanJsonFence | internal/analyzer/llm.go:93-97 | a JSON text in a "```json" fence, with any whitespace inside the fence, comes out bare |
| Llm.CleanBareFence | internal/analyzer/llm.go:93-97 | the same for a bare "```" fence |
| Llm.CleanIdempotent | internal/analyzer/llm.go:93-97 | cleaning fence-free content twice is cleaning it once |
| Llm.HandleReply | internal/analyzer/llm.go:76-104 | a non-200 status is the "groq api error" quoting status and body; a decode error is passed on; no choices is "no response from groq"; success happens exactly when the status is 200, there are choices, and the first one's cleaned content decodes, and the result is that decoding |
| Llm.OnlyFirstChoice | internal/analyzer/llm.go:90 | replies that agree on the first choice are handled alike |
| Llm.UndecodableIsError | internal/analyzer/llm.go:99-102 | content that does not decode gives an error that quotes the cleaned content, never a partial analysis |
| Analyzer.New | internal/analyzer/analyzer.go:21-32 | an LLM client exists exactly when the API key is non-empty |
| Analyzer.Quote | internal/analyzer/analyzer.go:78-87 | a quoted summary is marked RESOLVED exactly when it is resolved, and UNRESOLVED otherwise |
| Analyzer.PromptHistory | internal/analyzer/analyzer.go:72-90 | the history as written quotes min(3, n) summaries: the first three, in stored order |
| Analyzer.PromptHistoryLatest | internal/analyzer/analyzer.go:72-90 | the corrected history quotes min(3, n) summaries: the last three, oldest of them first |
| Analyzer.LatestIsQuoted | internal/analyzer/analyzer.go:72-90 | the corrected history always ends with the newest summary |
| Analyzer.HistoriesAgreeWhenShort | internal/analyzer/analyzer.go:72-90 | with at most three summaries the two histories coincide |
| Analyzer.FirstThreeMissLatest | internal/analyzer/analyzer.go:74-77 | with four summaries the history as written leaves the newest one out, and the corrected one quotes it |
| Analyzer.LogEntries | internal/analyzer/analyzer.go:102-109 | each input log contributes exactly one entry, in order, with its time, level and message |
| Analyzer.PromptAround | internal/analyzer/analyzer.go:68-131 | for a given quoted history: the prompt starts with the stream header and ends with the logs section and then the tasks; a history section is present exactly when the history is non-empty and holds it; a patterns section is present exactly when there are common errors, and lists them |
| Analyzer.BuildPrompt | internal/analyzer/analyzer.go:68-131 | the prompt as written: header first, logs section then tasks last; a history section exactly when there are summaries, quoting the first three in stored order; a patterns section exactly when there are common errors, listing them |
| Analyzer.BuildPromptIntended | internal/analyzer/analyzer.go:68-131 | the same structure, with the history section quoting the latest three summaries |
| Analyzer.PromptsAgreeWhenShort | internal/analyzer/analyzer.go:72-90 | with at most three summaries the prompt as written and the intended prompt are equal |
| Analyzer.IntendedPromptQuotesLatest | internal/analyzer/analyzer.go:72-90 | the intended prompt's history section always quotes the newest summary |
| Analyzer.Stamp | internal/analyzer/analyzer.go:62-63 | stamping sets the stream id and time and keeps every other field |
| Analyzer.Analyze | internal/analyzer/analyzer.go:35-66 | empty input is "no logs to analyze"; a GetContext error is passed on; otherwise it succeeds; the result carries the stream id and the current time; it is the LLM's answer to the prompt as written (BuildPrompt) when an LLM is configured and answers, and the fallback's otherwise |
| Analyzer.NoKeyMeansFallback | internal/analyzer/analyzer.go:21-32 | with an empty API key the result is the fallback's, whatever the LLM client would say |
| Analyzer.FailingLlmIsFallback | internal/analyzer/analyzer.go:50-56 | a failing LLM gives the same analysis as having no LLM at all |
| Handlers.Atoi | internal/server/handlers.go:43 | the parsed value is in the 64-bit range; when the leading digits after the sign pass 2^64-1 the value is the nearest end of the range whatever follows them, as ParseUint reports the range error first; otherwise a text with no digits or a non-digit reads as 0, and an all-digit number outside the range reads as its nearest end |
| Handlers.OverflowingDigits | internal/server/handlers.go:43-46 | a limit of twenty or more digits starting with 9, followed by anything that is not a digit, becomes the largest int, not 100 |
| Handlers.OverflowBeforeSyntaxError | internal/server/handlers.go:43-46 | `limit=99999999999999999999x` becomes the largest int |
| Handlers.LogsLimit | internal/server/handlers.go:43-46 | the limit is never 0: a zero or unparsable query gives 100, any other value is passed on |
| Handlers.LogsLimitOfDecimal | internal/server/handlers.go:43-46 | a positive decimal limit is passed on unchanged |
| Handlers.LogsLimitDefaults | internal/server/handlers.go:43-46 | an empty, zero, non-numeric or sign-only limit becomes 100 |
| Handlers.GetLogsEndpoint | internal/server/handlers.go:39-69 | the logs endpoint answers the bucket query with the endpoint's limit and no level filter |
| Handlers.NegativeLimitSelectsNothing | internal/server/handlers.go:43-46 | a negative limit passes the default check and returns no logs |
| Handlers.MarkResolved | internal/server/handlers.go:164-165 | only the chosen entry changes: it becomes resolved with the note; the length and every other entry are unchanged |
| Handlers.ResolveAsWritten | internal/server/handlers.go:159-165 | an index at or past the end is a bad request; a negative index panics; a valid index marks that entry |
| Handlers.NegativeIndexPanics | internal/server/handlers.go:159-164 | index -1 is not rejected and reaches the slice index |
| Handlers.Resolve | internal/server/handlers.go:159-167 | with the corrected check, a bad request happens exactly for indices outside the list and nothing panics; a resolved context differs only in the chosen entry, which is resolved with the note |
| Handlers.ResolveAgrees | internal/server/handlers.go:159-165 | the corrected and the written handler agree on every non-negative index |
| Handlers.ResolveIdempotent | internal/server/handlers.go:164-165 | resolving the same entry twice with the same note is resolving it once |
| Handlers.WriteBack | internal/server/handlers.go:164-172 | the context is written back only when an entry was resolved, and then reading it returns that context; any other outcome leaves the store as it was |
| Handlers.HandleResolve | internal/server/handlers.go:153-172 | the handler as written: the outcome is ResolveAsWritten on the stored context, so a negative index panics (a 500 after panic recovery); the context is written back only on success, and then reading it returns the resolved context; a failed or panicking request leaves the store as it was |
| Handlers.HandleResolveIntended | internal/server/handlers.go:153-172 | the handler with the intended guard: it never panics; the outcome is Resolve on the stored context; the store changes only on success |
| Handlers.HandlersAgreeOffPanic | internal/server/handlers.go:159-172 | on every request the written handler does not panic on, the two handlers give the same outcome and store |
| Handlers.Summarize | internal/server/handlers.go:117-123 | the appended summary copies timestamp, summary, root cause and severity, and is unresolved |
| Handlers.AppendSummary | internal/server/handlers.go:116-124 | exactly one summary is appended at the end of Analyses; the earlier ones and every other field are unchanged |
| Handlers.AppendedSummaryIsOpen | internal/server/handlers.go:117-123 | after the append, the fallback classifier links the next analysis to this one |
| Handlers.AnalysisInput | internal/server/handlers.go:83 | an analysis looks at most at the 100 newest logs of the stream, a suffix of its bucket |
| Handlers.HandleAnalyze | internal/server/handlers.go:71-127 | with no logs the answer is "no logs to analyze" and the store is unchanged; otherwise it succeeds with the analyzer's result on the newest logs and the stored context |
| Handlers.AnalyzeRecords | internal/server/handlers.go:108-124 | after a successful analysis the stream's context holds exactly one more summary, at the end, describing it, and the analysis is in the stream's history |

## Left out

- bbolt internals are not modelled: transactions, file locking, and `Bucket.Stats()` inside a write transaction. The bucket's key count is taken to be exact after the Puts.
- Deleting keys during cursor iteration (internal/storage/bolt.go:80-83) is modelled as deleting exactly the smallest keys. bbolt's cursor behaviour after a Delete is not visible.
- RFC 3339 rendering of keys is not modelled; it is the function parameters `render` and `renderSec`. Nothing is claimed about GetLogs being ordered by time, only by key.
- JSON marshalling is the identity. Unmarshal failures, which GetLogs and GetAnalysisHistory skip, cannot arise.
- Floating point is left out: ErrorRate in StoreLogs and ListStreams, and the "%.1f%%" prompt line.
- The clock is a parameter (`now`, `SourceLine.readAt`).
- Handlers.HandleAnalyze reads the clock once. The program reads it in GetContext and in Analyzer.Analyze separately.
- Hub concurrency is left out: goroutines, channels, the RWMutex, the 256-slot broadcast queue and the WebSocket I/O.
- Hub.Broadcast: models the evidently intended effect, where each connection whose write fails is unregistered. As written, the broadcast case of the Run loop sends on the unbuffered unregister channel that only the same loop receives from (internal/server/websocket.go:81), so the first failed write blocks the hub. That deadlock is concurrency and is not modelled.
- HTTP plumbing is left out: routing, middleware, URL unescaping of stream ids, JSON request decoding, response encoding, `handleListStreams`, `handleGetStream`, `handleGetContext` (thin wrappers over modelled storage calls) and the WebSocket handler's history replay.
- The `since` duration parameter of the logs endpoint (`time.ParseDuration`) is not modelled; it is the lower bound passed in.
- Building and sending the LLM request is not modelled. The HTTP exchange is given as a `Reply`.
- Prompt rendering is not modelled: `Format("15:04")`, `Sprintf` and the fixed task text. The prompt is kept as its sections.
- Storage errors other than "stream not found" cannot arise in the model.
- internal/ingest/discovery.go is not part of this model. It enumerates files with filesystem calls.
- File I/O is left out: opening (the open error's text is a parameter), seeking and `bufio.Scanner`'s 64 KiB token limit. A file is given as its lines. The second scan is given as the lines found past the end Start seeks to. That scan stops at the first end of file, and Start then returns (internal/ingest/file.go:97-121). So the tailer does not keep following the file, and the model does not pretend it does. `scanner.Err()` at the end of Start is not modelled.
- BoltStore.GetContext: the error path (unmarshal failure) is not modelled, so it always succeeds. Analyzer.Analyze takes the outcome of GetContext as a parameter, so the propagation of an error is still stated.
- Handlers.Atoi: the error value is dropped, as the handler drops it.
- Fallback.Messages: lower-casing maps only the characters whose lower case is ASCII ('A' to 'Z', U+0130 and U+212A). Every other non-ASCII letter is kept as it is, where strings.ToLower would map it to another non-ASCII letter. The messages themselves can therefore differ from Go's. Keyword hits, and so Fallback.Analyze, cannot differ, because every keyword is ASCII (Fallback.KeywordsAscii).
- Analyzer.BuildPrompt: states the section structure and the recent-logs entries, not the rendered text.

## Findings

| source | as written | input that shows it | evidently intended | confidence | as-written member | corrected member |
|---|---|---|---|---|---|---|
| internal/server/handlers.go:159-164 | the guard rejects only `index >= len(Analyses)` before indexing the slice | `{"analysis_index": -1}`: the guard passes, the slice index panics, and panic recovery answers 500 | every index outside `0 <= index < len` is answered "invalid analysis index" with status 400 | not executed | Handlers.ResolveAsWritten, Handlers.NegativeIndexPanics (used by Handlers.HandleResolve) | Handlers.Resolve, Handlers.HandleResolveIntended |
| internal/storage/bolt.go:290, 305-308 | history keys are `streamID + ":" + time`, and the scan keeps every key with prefix `streamID + ":"` | an analysis of stream "api:v2" is stored under "api:v2:…", which has the prefix "api:", so it appears in the history of stream "api" | a stream's history holds only that stream's analyses | not executed | BoltStore.HistoryAdmitsOtherStream | BoltStore.OwnHistory, BoltStore.StoredAnalysisInOwnHistory (used by Handlers.AnalyzeRecords) |
| internal/analyzer/analyzer.go:74-77 | the loop breaks at index 3 over the summaries in stored (oldest-first) order, under a comment saying it includes the last 3 | a context with four summaries: the prompt quotes the three oldest and leaves out the newest | the prompt quotes the three most recent summaries | not executed | Analyzer.PromptHistory, Analyzer.FirstThreeMissLatest (used by Analyzer.BuildPrompt and so Analyzer.Analyze) | Analyzer.PromptHistoryLatest, Analyzer.BuildPromptIntended, Analyzer.IntendedPromptQuotesLatest |
