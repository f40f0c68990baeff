# Log dashboard core in Dafny

This project models the logic of a log-analysis dashboard. A user uploads a
log file. The backend recognises lines of the shape
`[timestamp] [LEVEL] [domain] message` and summarises them under optional
level and domain allow-lists. It returns the filtered lines and streams them
back to the browser. The browser keeps a bounded buffer of streamed lines, a
searchable multi-select for the filters, and a duration readout.

Modules, following the program's structure:

- `Wrappers`: `Option`.
- `Seqs`: first occurrence, order-preserving filter, subsequence, split and join on a separator, and infix containment.
- `Text`:
  - Unicode `White_Space`, `str::trim` and `str::lines`;
  - ASCII lower-casing.
- `LogGrammar`:
  - the line grammar of `LOG_REGEX` as a datatype with a rendering;
  - a deterministic recogniser `ParseLine`;
  - the round trip between the two.
- `Parser`: `parse_log` as a fold over the recogniser's verdicts, the per-line predicate shared by all endpoints, and the summary's meaning.
- `FilterApi`: `filter_handler`.
- `LogStorage`: the session store as a map with save, get and remove.
- `StreamLogs`:
  - `stream_filtered_logs`, with the comma-separated query parsing;
  - `close_session`;
  - the corrected stream of the finding below.
- `LogViewer`: the `onmessage` append-and-trim buffer and its reset when the stream is reopened.
- `MultiSelect`: option search, `toggleOption`, select all and select none.
- `Duration`: `calculateDuration`.

The stream handler reads the session's log through a parameter. The file
system is the `files` map of the corrected stream.

## Model

| member | source | states |
|---|---|---|
| LogGrammar.ReadField | backend/src/parsing/parser.rs:12 | a read `[field]` is non-empty, free of `]`, and re-bracketing it with the rest gives back the input |
| LogGrammar.ReadFieldOf | backend/src/parsing/parser.rs:12 | a bracketed field is read back exactly whatever follows it, because the field ends at the first `]` |
| LogGrammar.ReadSeparatedField | backend/src/parsing/parser.rs:12 | the one separator read is whitespace and precedes a bracketed field; the pieces recompose the input |
| LogGrammar.ReadSeparatedFieldOf | backend/src/parsing/parser.rs:12 | one whitespace character followed by a bracketed field is read back exactly |
| LogGrammar.ReadTail | backend/src/parsing/parser.rs:12 | `\s*(.*)$` takes an all-whitespace pad and a message without a newline that does not start with whitespace; together they are the input |
| LogGrammar.ReadTailOf | backend/src/parsing/parser.rs:12 | a pad followed by a newline-free message is accepted; the greedy pad covers the given pad, and equals it when the message starts with a non-space |
| LogGrammar.LeadingWhitespaceOfPadded | backend/src/parsing/parser.rs:12 | the whitespace run at the head of pad plus message covers the pad, and ends there when the message starts with a non-space |
| LogGrammar.ParseLine | backend/src/parsing/parser.rs:10-14 | an accepted line has non-empty `]`-free fields, single whitespace separators, a maximal pad and a newline-free message, and its rendering is the line itself |
| LogGrammar.ParseRendered | backend/src/parsing/parser.rs:12 | every rendering of a well-formed line is accepted with the same fields and separators; with a maximal pad, exactly the original line record comes back |
| LogGrammar.AcceptedIffWellFormed | backend/src/parsing/parser.rs:10-14 | a line is accepted if and only if it is the rendering of some well-formed line record |
| LogGrammar.RoundTrip | backend/src/parsing/parser.rs:12 | rendering inverts recognition, and recognition inverts rendering on maximal-pad records |
| LogGrammar.UnbracketedRejected | backend/src/parsing/parser.rs:12 | a line not opening with `[` never matches |
| LogGrammar.LevelNonEmpty | backend/src/parsing/parser.rs:12 | the level of an accepted line is never empty |
| Text.LeadingWhitespace | backend/src/parsing/parser.rs:12 | the length of the longest whitespace prefix: all of it is whitespace and the next character is not |
| Text.TrailingWhitespace | backend/src/api/stream_filtered_logs.rs:72 | the length of the longest whitespace suffix: all of it is whitespace and the character before is not |
| Text.Trim | backend/src/api/stream_filtered_logs.rs:72 | the result is an infix of the input with only whitespace around it, does not start or end with whitespace, and uses only the input's characters |
| Text.TrimTrimmed | backend/src/api/stream_filtered_logs.rs:72 | a string without whitespace at either end is its own trim |
| Text.Lines | backend/src/parsing/parser.rs:26 | no line contains a newline; which lines come back is stated by `Text.LinesSplit`, `Text.LinesJoin`, `Text.LinesCrlf` and `Text.LinesUnlines` |
| Text.LinesSplit | backend/src/parsing/parser.rs:26 | the lines are the pieces between `\n`s, each piece before a `\n` losing one trailing `\r`, and the piece after the last `\n` kept unchanged unless it is empty |
| Text.LinesJoin | backend/src/parsing/parser/tests/parser_test.rs:4-12 | plain lines joined with `\n`, the last one non-empty, come back exactly: the final line without `\n` is returned as it is |
| Text.LinesCrlf | backend/src/parsing/parser.rs:26 | plain lines each ended by `\r\n` come back exactly: the `\r` of a `\r\n` ending is dropped |
| Text.LinesUnlines | backend/src/parsing/parser.rs:26 | splitting newline-terminated plain lines recovers exactly those lines |
| Text.ToLowerAscii | frontend/src/components/SearchableMultiSelect.tsx:32 | the result has the input's length and no capital letter; each capital becomes the matching small letter in place, and every other character is unchanged |
| Text.ToLowerIdempotent | frontend/src/components/ui/SearchableMultiSelect.tsx:26 | lower-casing twice is lower-casing once |
| Seqs.IndexOf | backend/src/parsing/parser.rs:26 | the found position holds the element and no earlier one does; none found means the element is absent |
| Seqs.Split | backend/src/api/stream_filtered_logs.rs:72 | at least one piece, no piece holds the separator, and joining the pieces with it gives back the input |
| Seqs.SplitJoin | backend/src/api/stream_filtered_logs.rs:72 | splitting a join of separator-free parts recovers the parts |
| Seqs.Contains | frontend/src/components/SearchableMultiSelect.tsx:32 | true if and only if the needle occurs at some position of the haystack |
| Parser.FilterLines | backend/src/api/filter.rs:25-44 | the lines that match the pattern and whose level and domain pass the lists; what they are is stated by `Parser.FilterLinesSpec` |
| Parser.FilterLinesSpec | backend/src/api/filter.rs:25-44 | the kept lines are an order-preserving subsequence of the input; all of them pass; each passing line is kept exactly as often as it occurs and no other line is kept |
| Parser.KeptEntries | backend/src/parsing/parser.rs:27-33 | every kept record passes both allow-lists |
| Parser.KeptEntriesOfLines | backend/src/api/filter.rs:25-44 | the records the summary folds over are, one for one and in order, the records of the lines the filter returns |
| Parser.Tally | backend/src/parsing/parser.rs:27-37 | one pass of the loop; `Parser.TallyDescribes` states that it keeps the summary describing the kept records |
| Parser.TallyDescribes | backend/src/parsing/parser.rs:27-37 | if a summary describes some records, then after one step it describes those records plus the line's record when the line matches and passes, and the same records otherwise |
| Parser.Summarize | backend/src/parsing/parser.rs:22-39 | the loop over the lines from the empty summary; `Parser.SummarizeDescribes` states what it computes |
| Parser.SummarizeDescribes | backend/src/parsing/parser.rs:26-39 | the fold's total is the number of kept records; each level key counts the records with that level, and no key exists for an absent level; the domains are exactly those of the kept records |
| Parser.ParseLog | backend/src/parsing/parser.rs:17-46 | the summary describes the passing records, and its total equals the number of lines the filter returns for the same allow-lists |
| Parser.LevelsSumToTotal | backend/src/parsing/parser.rs:34-35 | the values of the level map add up to the total |
| Parser.SummaryWithinAllowLists | backend/src/parsing/parser.rs:31-32 | every level key is in a given level list, and every domain is in a given domain list |
| Parser.UnfilteredCountsEveryMatch | backend/src/parsing/parser.rs:26-38 | without allow-lists the total is the number of matching lines |
| Parser.UnmatchedLinesIgnored | backend/src/parsing/parser.rs:27 | dropping the non-matching lines leaves the summary unchanged, whatever the allow-lists |
| Parser.NoAllowedLevel | backend/src/parsing/parser/tests/parser_test.rs:35-46 | a level list no matching line satisfies gives total 0, no levels and no domains |
| Parser.AllowedLevelCountUnchanged | backend/src/parsing/parser/tests/parser_test.rs:48-61 | a level kept by the level list has the same count as without the list |
| FilterApi.FilterHandler | backend/src/api/filter.rs:21-50 | the returned lines are the matching, passing input lines, unmodified, in order, with their multiplicities; there are as many as the summary counts |
| FilterApi.AbsentAllowListsKeepEveryMatch | backend/src/api/filter.rs:32-38 | with neither list, each matching line is kept as often as it occurs, and nothing else |
| FilterApi.EmptyAllowListKeepsNothing | backend/src/api/filter.rs:32-38 | a present but empty list, in either position, keeps no line |
| FilterApi.EmptyLevelKeepsNothing | backend/src/api/filter.rs:32-34 | the level list `[""]` keeps no line |
| LogStorage.GetUserLog | backend/src/log_storage.rs:20-22 | the stored path of a known session, none for an unknown one; what it reads after saves and removals is stated by `LogStorage.SaveUserLog`, `LogStorage.RemoveUserLog` and `LogStorage.RunReadsLastWrite` |
| LogStorage.SaveUserLog | backend/src/log_storage.rs:13-17 | the session then reads back the new path, overwriting any old one; other sessions are unchanged; the count grows by one only for a new session |
| LogStorage.RemoveUserLog | backend/src/log_storage.rs:25-32 | the session then reads back nothing and the removed path is its old value; other sessions are unchanged; an unknown session leaves the store as it was; the count drops by one only for a known session |
| LogStorage.RunReadsLastWrite | backend/src/log_storage.rs:13-32 | after any sequence of saves and removals, a session reads back what the last change to it wrote, or its initial value when none touched it |
| StreamLogs.TrimAll | backend/src/api/stream_filtered_logs.rs:72 | one trimmed piece per input piece |
| StreamLogs.ParseAllowList | backend/src/api/stream_filtered_logs.rs:69-77 | an absent parameter gives no list; a present one gives one comma-free, trimmed entry per comma-separated piece |
| StreamLogs.StreamFilteredLogs | backend/src/api/stream_filtered_logs.rs:59-109 | an unknown session streams nothing; otherwise the events are exactly `filter_handler`'s lines for the stored value and the parsed lists |
| StreamLogs.StreamedLinesPass | backend/src/api/stream_filtered_logs.rs:80-103 | every event is an unchanged line of the stored text, in order, that matches and passes the parsed lists |
| StreamLogs.EmptyLevelsStreamNothing | backend/src/api/stream_filtered_logs.rs:69-72 | an empty `levels` parameter parses to `[""]` and streams nothing |
| StreamLogs.CloseSession | backend/src/api/stream_filtered_logs.rs:119-123 | replies `"ok"`; the session then reads back nothing and other sessions are unchanged |
| StreamLogs.StreamFileLogs | backend/src/api/stream_filtered_logs.rs:63-80 | corrected stream: an unknown session streams nothing; otherwise the events are `filter_handler`'s lines for the contents of the stored path |
| StreamLogs.UploadedFileStreamsItsLines | backend/src/api/upload.rs:100 | after an upload saves its path, the corrected stream emits as many lines as the summary of the file counts |
| StreamLogs.StreamScansPath | backend/src/api/stream_filtered_logs.rs:63-80 | for a path not shaped like a log line whose file holds one log line, the stream as written emits nothing and the corrected one emits that line |
| StreamLogs.StreamScansPathNotFile | backend/src/api/upload.rs:67-100 | the same on the path `./uploads/s.log` with the file line `[t] [INFO] [core] up` |
| LogViewer.Mount | frontend/src/components/LogViewer.tsx:8-15 | a mounted viewer starts with no lines; `LogViewer.ShowsLatestMessages` states what it shows afterwards |
| LogViewer.Receive | frontend/src/components/LogViewer.tsx:20-28 | one message applies `onmessage` to the lines; `LogViewer.ShowsLatestMessages` states the effect of many |
| LogViewer.OnMessage | frontend/src/components/LogViewer.tsx:20-28 | the length becomes the old length plus one, capped at `maxLines` (0 when `maxLines` is negative); with a cap of at least 1 the new line is last |
| LogViewer.OnMessageKeepsLast | frontend/src/components/LogViewer.tsx:22-25 | the update keeps the last `maxLines` lines of the extended list, or all of them while they fit |
| LogViewer.OnMessageSuffix | frontend/src/components/LogViewer.tsx:22-25 | trimming removes only from the front, and nothing while there is room |
| LogViewer.Rerender | frontend/src/components/LogViewer.tsx:14-38 | a change of `url` or `maxLines` empties the buffer; otherwise the state is kept |
| LogViewer.ShowsLatestMessages | frontend/src/components/LogViewer.tsx:20-28 | after any messages since the stream opened, the buffer is their last `maxLines`, in arrival order |
| LogViewer.ReopenForgetsOldLines | frontend/src/components/LogViewer.tsx:14-38 | after reopening, no earlier line shows again: the buffer holds only the new stream's latest messages |
| LogViewer.DefaultShowsLatest2000 | frontend/src/components/LogViewer.tsx:8 | without a `maxLines` prop the viewer shows the latest 2000 messages, in order, and never more |
| LogViewer.LinesBounded | frontend/src/components/LogViewer.tsx:22-25 | the buffer never holds more than `maxLines` lines |
| MultiSelect.FilterOptions | frontend/src/components/SearchableMultiSelect.tsx:30-34 | the options shown for a query; what they are is stated by `MultiSelect.FilterOptionsSpec` |
| MultiSelect.FilterOptionsSpec | frontend/src/components/SearchableMultiSelect.tsx:30-34 | the shown options are an order-preserving sub-list; each shown option matches the query case-insensitively; every matching option is shown as often as it is given |
| MultiSelect.EmptyQueryShowsAll | frontend/src/components/SearchableMultiSelect.tsx:30-34 | the empty query shows every option |
| MultiSelect.QueryCaseIgnored | frontend/src/components/ui/SearchableMultiSelect.tsx:25-27 | a query and its lower-case form show the same options |
| MultiSelect.Toggle | frontend/src/components/SearchableMultiSelect.tsx:36-42 | a selected option is removed everywhere and the rest keep their order and count; an unselected one is appended at the end |
| MultiSelect.ToggleFlipsOnlyArgument | frontend/src/components/ui/SearchableMultiSelect.tsx:29-35 | toggling flips whether its option is selected and no other option's membership |
| MultiSelect.ToggleTwiceRestores | frontend/src/components/SearchableMultiSelect.tsx:36-42 | toggling an unselected option twice restores the selection |
| MultiSelect.OnSelect | frontend/src/components/SearchableMultiSelect.tsx:77-109 | select all passes the options in their order with their repetitions; select none passes nothing; a pick is `toggleOption` of its option, so its option flips |
| MultiSelect.OnSelectChecks | frontend/src/components/SearchableMultiSelect.tsx:77-109 | after a pick an option is checked exactly when it was checked and is not the picked one, or was unchecked and is the picked one; after select all exactly the options are checked; after select none nothing is |
| MultiSelect.PickTwiceRestores | frontend/src/components/SearchableMultiSelect.tsx:101-109 | picking an unchecked option twice restores the selection |
| Duration.ElapsedFromDiff | frontend/src/components/LogSummarySidebar.tsx:25-29 | no duration exactly for a negative difference; otherwise seconds are below 60 and minutes and seconds make up the whole seconds of the difference, with the sub-second part dropped |
| Duration.ElapsedUnique | frontend/src/components/LogSummarySidebar.tsx:27-29 | any minutes-and-seconds split with those bounds is the computed one |
| Duration.NatToDecimal | frontend/src/components/LogSummarySidebar.tsx:30 | decimal digits only, no leading zero, and reading them back gives the number |
| Duration.Format | frontend/src/components/LogSummarySidebar.tsx:30 | `${minutes}m ${seconds}s`, the numbers written by `Duration.NatToDecimal` |
| Duration.CalculateDuration | frontend/src/components/LogSummarySidebar.tsx:19-34 | there is a result if and only if both timestamps are present and non-empty, both parse, and the stop is not before the start; it is the formatted split of the exact integer difference |
| Duration.EqualTimestampsGiveZero | frontend/src/components/LogSummarySidebar.tsx:26-30 | equal valid timestamps give `0m 0s`, not null |
| Duration.PartialSecondDropped | frontend/src/components/LogSummarySidebar.tsx:27-29 | a difference of 61.5 seconds reads `1m 1s` |

## Left out

- The regex engine: only the fixed grammar of `LOG_REGEX` is modelled, as a hand-written recogniser. `\s` is the Unicode `White_Space` property.
- The upload handler's I/O is not modelled: multipart reading, directory creation, file writes, session id generation and the background parse.
- The `Mutex` around the session store, the `info!` logging, and the `remove_file` of the removed path are not modelled. The removed path is returned instead.
- The SSE framing is not modelled (`Event`, `Sse`, stream boxing). A stream is the sequence of its event payloads.
- StreamLogs.StreamFilteredLogs: each passing line becomes an event through axum's `Event::data` (`stream_filtered_logs.rs:98`), which axum documents as panicking on data that contains `\r`. A passing line can hold a `\r`, because `.` in the pattern accepts it and `str::lines` keeps a final bare `\r`. The real stream then ends at that line; the model emits the line and goes on. axum is not part of this model.
- StreamLogs.StreamFileLogs: the same `\r` panic is not modelled, for the same reason.
- Router assembly, CORS, body limits, the OpenAPI document and the generated client are not modelled.
- `LogViewer`'s `EventSource` lifecycle, its `onerror` close and its auto-scroll effect are browser behaviour and not modelled.
- LogViewer.OnMessage: `maxLines` is an integer; a fractional `maxLines` from JavaScript is not modelled.
- Text.ToLowerAscii: folds only `A`-`Z`, not the whole Unicode case mapping of `toLowerCase`.
- Duration.CalculateDuration: `new Date(..).getTime()` is the `parseDate` parameter, with `None` for an invalid date. Date-string parsing is not modelled. The difference and the division are exact integers; JavaScript subtracts doubles, so for timestamps more than 2^53 ms apart the difference is rounded and the result can be one second off.
- Parser.ParseLog: counts are unbounded naturals; `usize` overflow is not modelled.
- Parser.ParseLog: `unique_domains` is a set, because its order comes from a `HashSet`. The `levels` map is unordered too.
- `Text.Lines` follows current Rust `str::lines`: a `\r` is stripped only before a `\n`, and a final bare `\r` is kept.
- The dashboard page, the summary cards and colour map, and the build files are not modelled. They are presentation only.
- The viewer's code has no flush timer, chunked search or JSON payload parsing; each message is appended and trimmed at once, and the model does the same.

## Findings

| source | as written | input that shows it | evidently intended | confidence | as-written member | corrected member |
|---|---|---|---|---|---|---|
| backend/src/api/stream_filtered_logs.rs:63-80 | the value `get_user_log` returns is split into lines and filtered as log text, but `upload.rs:100` stores the uploaded file's path there | upload saves session `s` with path `./uploads/s.log`, whose file holds `[t] [INFO] [core] up`; streaming `s` without filters emits nothing, because the only "line" is the path itself | read the file at the stored path and stream its passing lines | not executed | StreamLogs.StreamFilteredLogs | StreamLogs.StreamFileLogs |

`StreamLogs.StreamScansPath` proves the discrepancy in general. `StreamLogs.StreamScansPathNotFile` proves it on the input above.
