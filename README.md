# matrix-archive-bot, modelled in Dafny

matrix-archive-bot archives public Matrix rooms as static web pages. An
ingestion script (`run.mjs`) pages forward through each room's history
with the Matrix Client-Server API r0 `GET /rooms/{roomId}/messages`. It
resolves sender display names and buffers text and emote messages. It
then writes them into one JSON file per UTC day, merging each day with
what is already on disk: deduplicated by event id, existing events first,
stably sorted by timestamp. A forward cursor, the last event id seen, is
kept per room.

Several scripts read those day files:
- `utils.js` folds `m.replace` edits into the events they edit.
- `render-sql.js` adds new lines to a per-room SQLite full-text index, resuming from a watermark.
- `render-html.js` writes one HTML page per day, with prev/next links.
- `render-txt.js` writes one plain-text file per month.
- `scripts/search.js` is the in-browser search page. It escapes the query for SQLite FTS5 and pages through results, asking for one more row than it shows.
- `irc-logs-to-fake-json.js` converts IRC logs into day files of the same shape.

The project has one Dafny module per source file or shared component:

| module | file | models |
|---|---|---|
| `Common`, `Events`, `Protocol` | common.dfy, events.dfy, protocol.dfy | Option/Result, the stored event, thrown errors, the API's room events and pages |
| `Strings`, `Seqs` | strings.dfy, seqs.dfy | JavaScript `trim`, `\s`, `'' + n`, `padStart`, the default string sort |
| `Calendar` | calendar.dfy | `new Date(ts)` in UTC and `tsToDay` |
| `RequestLimit` | semaphore.dfy | `lock`/`unlock`, the six-request semaphore, as a class and as a trace |
| `DayStore` | day_store.dfy | the merge of a day file: dedupe, stable sort, serialisation |
| `DayBuffer` | save_days.dfy | `saveDays`, the buffer drained day by day into a map of day files |
| `SenderNames` | names.dfy | `guessName`, `memberMessageToDisplayname`, `resolveMemberEvent`, `sanitizeName` |
| `Ingest` | ingest.dfy | `addEvents`, the pagination loop and the cursor write, as the class `RoomLog` |
| `Edits` | edits.dfy | `isReplace`, `applyModifications` on arrays, `sanitizeRoomName` of `utils.js` |
| `SearchIndex` | search_index.dfy | the per-room loop of `render-sql.js` and the watermark |
| `IrcImport` | irc_import.dfy | the line regex, the sender decoding and day batching, as the class `Importer` |
| `RenderCommon` | render_common.dfy | `escapeForHtml`, `getNickClass`, the short-name regex and day-file listings shared by the renderers |
| `RenderHtml` | render_html.dfy | day order, the `alreadyDone` rule, navigation, `renderEvent`, the room and site loops |
| `RenderTxt` | render_txt.dfy | month grouping, the done-month rule, the month text, the room and site loops |
| `SearchPage` | search_page.dfy | `escapeForSql` and the `search` closure as the class `SearchSession` |

The file system is a map, or a function from names to contents. The
network is a sequence of API pages, and the SQLite database is a function
from query to rows. Anything that throws becomes an `Err` or a `thrown`
field that stops the loop it is in, as the uncaught exception does.

Points where the code's behaviour is easy to misread:
- Deduplication keys on `e.id` even when it is absent. A JavaScript `Set` holds `undefined` like any other key, so in a merge only the first id-less event survives.
- An exception in one room rejects the whole `Promise.all` and ends the run with exit code 1. There is no per-room isolation, and a timed-out request is not retried. The only retry is that of the context request.
- The ingestion cursor is written once per room, after the final `saveDays(..., true)`. It is not written after each day file.
- A stored message whose `msgtype` is missing is skipped by the search indexer. The HTML and text renderers throw on it.

## Model

| member | source | states |
|---|---|---|
| Calendar.DateOfDayNumberCorrect | run.mjs:301-304 | The civil date computed from a day number since 1970-01-01 is valid and maps back to that day number. |
| Calendar.UtcDateDayNumber | run.mjs:301-304 | The UTC date of a timestamp is a valid date whose day number is the timestamp's day, counted with floor division. |
| Calendar.DayNumberOrdered | run.mjs:300-306 | Day numbers order valid dates exactly as year, then month, then day. |
| Calendar.DayNumberInjective | run.mjs:300-306 | Two valid dates with the same day number are the same date. |
| Calendar.DaysInMonth | run.mjs:303-304 | Every month has 28 to 31 days. |
| Calendar.Pad2Shape | run.mjs:303-304 | `padStart(2, '0')` of a number below 100 is two digits that read back as the number. |
| Calendar.FormatDateInjective | run.mjs:302-305 | Different valid dates give different `year-MM-DD` names. |
| Calendar.FormatDateShape | run.mjs:302-305 | For a four-digit year the name is ten characters with dashes at 4 and 7, and its digit fields read back as year, month and day. |
| Calendar.TsToDayShape | run.mjs:300-306 | `tsToDay` of a valid timestamp in a four-digit year has that same shape and encodes the UTC date. |
| Calendar.SameDayName | run.mjs:300-306 | Two valid timestamps get the same day name if and only if they fall on the same UTC day. |
| RequestLimit.Semaphore.constructor | run.mjs:25-26 | Six slots are free and nobody waits. |
| RequestLimit.Semaphore.Lock | run.mjs:27-35 | A free slot is taken exactly when one is available; otherwise the caller's ticket joins the end of the queue. The invariant is kept. |
| RequestLimit.Semaphore.Unlock | run.mjs:36-42 | The oldest waiter is woken exactly when someone waits; otherwise a slot is freed. The invariant is kept. |
| RequestLimit.StepKeepsLimitAndOrder | run.mjs:25-42 | One call keeps free slots plus holders at six, with no waiter while a slot is free. The woken ticket followed by the queue equals the old queue followed by any ticket that had to wait. |
| RequestLimit.RunKeepsLimitAndOrder | run.mjs:25-42 | For any sequence of calls, at most six hold a slot, and waiters are woken strictly in arrival order. |
| DayStore.DedupeFromProperties | run.mjs:320-322 | The `seenIds` filter leaves unique ids, namely the input's ids minus those already seen. Each kept event is the first input event with its id. |
| DayStore.SortByTs | run.mjs:323 | Sorting by `ts` yields a permutation that is sorted ascending. |
| DayStore.SortByTsStable | run.mjs:323 | Events with equal timestamps keep their relative order. |
| DayStore.SortByTsOfSorted | run.mjs:323 | Sorting an already sorted day changes nothing. |
| DayStore.MergeProperties | run.mjs:320-323 | A merged day is sorted and free of repeated ids, and holds exactly the ids of both inputs. On a collision the existing event wins. |
| DayStore.MergeStable | run.mjs:321-323 | Events with equal timestamps stay in existing-then-incoming order. |
| DayStore.MergeKeepsExisting | run.mjs:320-323 | Every event of a valid existing file survives a merge unchanged. |
| DayStore.MergeNothingNew | run.mjs:320-323 | Merging only already-stored ids into a valid file leaves it unchanged. |
| DayStore.MergeIdempotent | run.mjs:320-323 | Merging the same slice twice gives the same file as merging it once. |
| DayStore.SerializeOneEventPerLine | run.mjs:325 | A non-empty day file's lines are `[`, then one stringified event per line with a trailing comma on all but the last, then `]`. |
| DayBuffer.KeyPrefix | run.mjs:314-316 | The inner loop shifts the longest prefix whose events all have the first event's day. |
| DayBuffer.SameDayPrefixShape | run.mjs:314-316 | The shifted prefix is exactly the leading run of events of that day. |
| DayBuffer.SaveAllPass | run.mjs:310-326 | One outer pass writes the first event's day merged with its existing file and drops that day's prefix from the buffer. |
| DayBuffer.SaveAllLeavesSuffix | run.mjs:310-316 | What `saveDays` leaves in the buffer is a suffix of it. |
| DayBuffer.SaveAllLeaves | run.mjs:310 | On exit the buffer is empty with `forceLast`; otherwise it is empty or its first and last events share a day. |
| DayBuffer.SaveAllKeepsIds | run.mjs:317-326 | No day file disappears and no id leaves one. |
| DayBuffer.SaveAllWritesConsumed | run.mjs:311-326 | Every event taken off the buffer is, by id, in the file of its own day. |
| DayBuffer.SaveAllUntouched | run.mjs:317-326 | A day none of whose events was taken is left as it was. |
| DayBuffer.SaveAllValid | run.mjs:320-326 | Sorted, id-unique day files stay so. |
| SenderNames.GuessName | run.mjs:278-280 | `senderId.match(/@([^:]+):/)[1]`: the guess is non-empty and colon-free. It fails, as a `TypeError`, exactly when no `@` is followed by a non-empty colon-free run and a colon. |
| SenderNames.GuessNameLeftmost | run.mjs:278-280 | When `k` is the leftmost match, the guess is its capture group: the text between that `@` and the colon after it. |
| SenderNames.GuessFromNone | run.mjs:278-280 | Scanning from a position captures nothing exactly when nothing matches at or after it. |
| SenderNames.GuessNameOfUserId | run.mjs:278-280 | For a user id `@localpart:server` the guess is the localpart. |
| SenderNames.MemberDisplayname | run.mjs:282-284 | A member event's display name, or the guess from its state key when it has none. |
| SenderNames.ResolveMember | run.mjs:205-211 | An unseen user is added with their display name or guess. A known user is overwritten only by a non-null display name. Nobody else changes. |
| SenderNames.SanitizeName | run.mjs:296-298 | The result holds only `[A-Za-z0-9_ \-.]` characters and is no longer than the input. |
| SenderNames.SanitizeSafeName | run.mjs:296-298 | A name made only of allowed characters is unchanged. |
| SenderNames.SanitizeRun | run.mjs:296-298 | A maximal run of other characters becomes one `_`. |
| SenderNames.SanitizeSafePrefix | run.mjs:296-298 | An allowed prefix is kept as it is. |
| Ingest.ResolveJoinsGrows | run.mjs:213-219 | `resolveMemberEvents` only adds users to the name map. |
| Ingest.ArchivableIn | run.mjs:175-189 | The events `addEvents` buffers are all `m.room.message` events with msgtype `m.text` or `m.emote`, and there are no more of them than events in the chunk. |
| Ingest.ArchivableMembers | run.mjs:175-189 | Every archivable event of the chunk is buffered, and nothing else is. |
| Ingest.AddAllBuffers | run.mjs:172-189 | `addEvents` appends exactly the archivable messages, in order. Each carries its event's id, timestamp, sender and content, and nothing already buffered changes. |
| Ingest.AddAllKnownTypes | run.mjs:175-196 | A successful `addEvents` met only message and member events, and every message had content. |
| Ingest.AddAllLazyNames | run.mjs:175-196 | The name map stays null exactly while no archivable message has been seen; once present it only gains users. |
| Ingest.AddAllFailsOnward | run.mjs:194-196 | Once an event throws, `addEvents` throws. |
| Ingest.Paginate | run.mjs:250-265 | The forward pagination loop passes at most one chunk per page. |
| Ingest.PaginateStopsAtUnchangedToken | run.mjs:250-265 | Paging stops at the first response whose `end` is missing or equal to the token it was requested with, however short the pages before it. Every earlier chunk is passed on whole. A stop on a non-empty chunk is the "pagination token didn't change" error. |
| Ingest.CursorWrite | run.mjs:269-271 | The cursor file is written if and only if there was none, or the trimmed stored id differs from the latest event id; what is written is the latest id. |
| Ingest.CursorNamesLatest | run.mjs:269-271 | After a room is done, the cursor file names the latest event either way. |
| Ingest.FeedAllFailsOnward | run.mjs:252-265 | Once a chunk throws, the rest of the room's ingestion throws. |
| Ingest.FeedAllSnoc | run.mjs:252-265 | Feeding one more chunk is `addEvents` on the state after the earlier chunks. |
| Ingest.RoomLog.constructor | run.mjs:169-170 | A room starts with an empty buffer and the loaded name map and cursor. |
| Ingest.RoomLog.SaveDays | run.mjs:308-328 | The in-place `saveDays` leaves the buffer and day files that `SaveAll` describes, and nothing else changes. |
| Ingest.RoomLog.SaveFirstDay | run.mjs:311-326 | One outer pass shortens the buffer and keeps what the rest of `saveDays` produces. |
| Ingest.RoomLog.ShiftDay | run.mjs:313-316 | The inner `shift()` loop removes exactly the first day's prefix and returns it. |
| Ingest.RoomLog.ResolveMemberEvent | run.mjs:205-211 | Updates the name map as `ResolveMember` says, and fails when the guess fails. |
| Ingest.RoomLog.ResolveMemberEvents | run.mjs:213-219 | Applies `ResolveMember` to each join event in order. |
| Ingest.RoomLog.AddEvent | run.mjs:173-197 | One iteration of the `addEvents` loop, as `Step` specifies. |
| Ingest.RoomLog.AddEvents | run.mjs:172-203 | Buffers the chunk as `AddAll` says, then runs `saveDays` and moves the latest event id when the chunk is non-empty. |
| Ingest.RoomLog.FeedChunk | run.mjs:264 | After the chunk, the room is in the state of `FeedAll` over the chunks so far; a throw makes every longer feed throw. |
| Ingest.RoomLog.FetchPage | run.mjs:256-264 | One page: `hasMore` as specified, the stalled-token error, then the chunk fed. |
| Ingest.RoomLog.FetchForward | run.mjs:250-265 | The whole loop feeds exactly the chunks `Paginate` passes and ends as it says. |
| Ingest.RoomLog.Finish | run.mjs:267-271 | The final forced `saveDays` empties the buffer, and the cursor is written as `CursorWrite` says. |
| Edits.IdMap | utils.js:32 | `new Map(events.map((e, i) => [e.id, i]))` maps each id to the last position holding it. |
| Edits.IdMapCovers | utils.js:32 | Every event's id is a key of that map. |
| Edits.Start | utils.js:31 | Before any edit, every position is live with its own content. |
| Edits.EditsFailOnward | utils.js:33-39 | Once a replacer throws, the whole call throws. |
| Edits.EditsWithoutReplacers | utils.js:27-30 | Without replacers no step changes anything. |
| Edits.ProjectStart | utils.js:40 | Filtering an unedited clone gives the events back. |
| Edits.NoReplacersUnchanged | utils.js:27-30 | If no event is a replace, `applyModifications` returns its input. |
| Edits.ApplyModifications | utils.js:26-41 | The array-based loop computes exactly `Applied`: the folded edits, or the `TypeError` thrown when an edit of an edit has left a replacer without its relation, or points at a slot already nulled. |
| Edits.AnyReplace | utils.js:27-28 | Answers whether some event is a replace. |
| Edits.BuildIds | utils.js:32 | Builds exactly `IdMap`. |
| Edits.RunEdits | utils.js:33-39 | The replacer loop over the content and live arrays ends in the state `Edits` specifies, or with its error. |
| Edits.EditAt | utils.js:33-39 | One replacer, as `ReplaceStep` specifies. |
| Edits.ProjectLive | utils.js:40 | `clone.filter(e => e != null)` keeps the live positions, in order. |
| Edits.TargetOf | utils.js:34-35 | A replacer's target is the position whose id is its `m.relates_to.event_id`. |
| Edits.UntargetedUnedited | utils.js:33-38 | An event no replacer targets keeps its content. |
| Edits.LastReplacerWins | utils.js:33-36 | When several replacers target one event, the last of them sets its content. |
| Edits.ReplacerUnedited | utils.js:33-38 | Without edits of edits, a replacer's own content is not changed. |
| Edits.EditsWithoutEditOfEdit | utils.js:33-39 | Without edits of edits, the loop never throws and every position has its edited content. |
| Edits.SurvivorsCount | utils.js:31-40 | The output is as long as the input minus the replacers whose target was found. |
| Edits.ProjectSurvivors | utils.js:37-40 | The output is the surviving events, in their original order. |
| Edits.AppliedWithoutEditOfEdit | utils.js:26-41 | Without edits of edits, the result is the events whose replacer target was not found, in order, each with its edited content. |
| Edits.UnfoundReplacerKept | utils.js:34-39 | A replacer whose target is not in the day is kept unchanged, as an ordinary event. |
| Edits.SanitizeRoomName | utils.js:15-20 | No `#` and no space is left, and a name starting with `#` gains the `irc-` prefix. The length is the input's, minus its `#`s, plus four when prefixed. |
| Edits.SanitizeRoomNameIdempotent | utils.js:15-20 | Sanitising twice is sanitising once. |
| SearchIndex.ToAdd | render-sql.js:34 | The files processed are exactly the `.json` files whose name sorts at or after `last.file`, in sorted order. |
| SearchIndex.FileParts | render-sql.js:43-59 | Each indexed part is a selected line whose msgtype is present, with its sender, timestamp, content and its index after the edits. Parts come in increasing index order. |
| SearchIndex.FilePartsThrows | render-sql.js:53-54 | The loop throws exactly when a selected line has no `content`. |
| SearchIndex.FilePartsComplete | render-sql.js:44-58 | Every selected line with a msgtype is indexed. Other files are taken whole; in the watermark file, lines whose id is in `last.ids` are dropped, and without `ids` only lines with `ts > last.ts` are kept. |
| SearchIndex.ScanFiles | render-sql.js:38-42 | After the file loop, `finalName` and `finalLines` are the last file and its raw lines, before edits. |
| SearchIndex.NextWatermark | render-sql.js:86-94 | The new watermark names the last file. It holds `ids: []` for an empty file, every raw id when the first line has one, and otherwise the last line's `ts`. |
| SearchIndex.IdList | render-sql.js:90 | `finalLines.map(l => l.id)`. |
| SearchIndex.IndexRoomSpec | render-sql.js:19-95 | A room without a database is skipped, and one without a watermark file throws. A room with new parts is indexed, and gets the watermark of the last file it was asked to add. A room with nothing new has no watermark written. |
| SearchIndex.IndexRoom | render-sql.js:14-96 | The loop over files and lines computes `IndexRoomSpec`. |
| SearchIndex.ScanFile | render-sql.js:42-59 | One file: the edits, then the selection. |
| SearchIndex.CollectParts | render-sql.js:52-59 | The inner loop pushes exactly the parts `FileParts` gives. |
| SearchIndex.AppliedKeepsIdAndTs | render-sql.js:42-47 | Edits keep each line's id and timestamp, so the watermark filters apply to the lines as read. |
| SearchIndex.RescanFindsNothing | render-sql.js:44-94 | A file whose lines all have ids, or whose lines are sorted and id-less, yields nothing new when scanned again under its own watermark. |
| IrcImport.ParseFormatted | irc-logs-to-fake-json.js:27-33 | A line built from a well-formed stamp, channel, sender and message parses back into those four parts. |
| IrcImport.ParsedShape | irc-logs-to-fake-json.js:27 | A line that parses has a 19-character timestamp, a `#` channel and a sender in one of the three forms. |
| IrcImport.UnameEndShape | irc-logs-to-fake-json.js:27 | The sender group matches `<...>`, `-...-` or `* ...`. |
| IrcImport.DecodeUname | irc-logs-to-fake-json.js:58-60 | `/me` exactly when the sender starts with `*`, a notice exactly when it starts with `-`. |
| IrcImport.DecodeForms | irc-logs-to-fake-json.js:58-60 | `<nick>` and `-nick-` lose their outer characters, and `* nick` loses its first two. |
| IrcImport.EntryOf | irc-logs-to-fake-json.js:58-72 | The entry's body is the message. Its msgtype is `m.emote` for `/me` and `m.text` otherwise, only a notice has `isIrcNotice`, and `senderId` is the nick plus `@irc`. |
| IrcImport.Classify | irc-logs-to-fake-json.js:24-51 | Blank lines are skipped. A non-blank line that does not parse stops the run. Otherwise the line gives its channel, its entry and its day file. |
| IrcImport.Flush | irc-logs-to-fake-json.js:78-90 | With no current file nothing happens. A current file that already exists, on disk or written earlier in the run, stops the run. Otherwise that file is written with exactly the current entries, and earlier files are left alone. |
| IrcImport.LinesFailOnward | irc-logs-to-fake-json.js:23-74 | Once a line stops the run, it stays stopped. |
| IrcImport.LineStepKeeps | irc-logs-to-fake-json.js:53-73 | Each line keeps the batching invariant: the current batch is one day, and written files are new, non-empty, single-day and distinct. |
| IrcImport.LineStepChannel | irc-logs-to-fake-json.js:35-44 | A line succeeds only when it names the channel already seen, or is the first. |
| IrcImport.ImportWritesAll | irc-logs-to-fake-json.js:23-75 | A successful import writes every entry exactly once, in order, into new files of its own day. |
| IrcImport.ParseLine | irc-logs-to-fake-json.js:27 | A matched line's stamp is its first 19 characters, of the shape `dddd-dd-ddTdd:dd:dd`. |
| IrcImport.StampParseParses | irc-logs-to-fake-json.js:46 | `ParsesStamps` can be met: it holds of a reading that gives `NaN` for fields out of range. `ParsesStamps` says a stamp whose fields are in range, with `Z` added, is read as that UTC time. |
| IrcImport.StampTimeDate | irc-logs-to-fake-json.js:46-50 | The time of a stamp in a four-digit year is a valid time value, and its UTC date is the stamp's date. |
| IrcImport.StampDateText | irc-logs-to-fake-json.js:48-51 | The date of a stamp whose year does not start with `0` prints as the stamp's first ten characters. |
| IrcImport.StampDayFile | irc-logs-to-fake-json.js:46-51 | With stamps read as UTC, a stamp whose fields are in range and whose year does not start with `0` gives the file name of its own written date, `YYYY-MM-DD.json`. |
| IrcImport.ClassifyDayFile | irc-logs-to-fake-json.js:27-51 | With stamps read as UTC, an entry whose stamp has fields in range and whose year does not start with `0` goes in the day file of the date at the head of its line. |
| IrcImport.ImportOneChannel | irc-logs-to-fake-json.js:24-44 | A successful import saw only blank lines and parsing lines, all of one channel, whose live room does not exist. |
| IrcImport.ImportStops | irc-logs-to-fake-json.js:28-44 | A line that fails makes the whole import fail. |
| IrcImport.ImportEnds | irc-logs-to-fake-json.js:75 | The run ends with one last flush. |
| IrcImport.Importer.constructor | irc-logs-to-fake-json.js:20-22 | No channel, no current file, no entries. |
| IrcImport.Importer.WriteCurrentBatch | irc-logs-to-fake-json.js:78-90 | The in-place flush, as `Flush` specifies. |
| IrcImport.Importer.ImportLine | irc-logs-to-fake-json.js:23-74 | One iteration of the line loop, as `LineStep` specifies. |
| IrcImport.Importer.Import | irc-logs-to-fake-json.js:15-75 | The whole loop and the final flush compute `ImportSpec`. When the script throws, the files written stay written: exactly those the lines before the failing line (or before the final flush) wrote. |
| RenderCommon.SanitizeRoomName | render-html.js:65-67 | Spaces become `_` and nothing else changes. |
| RenderCommon.SanitizeWithoutSpaces | render-txt.js:87-89 | A name without spaces is unchanged. |
| RenderCommon.EscapeForHtmlOnePass | render-html.js:192-199 | The five chained replacements equal replacing each character by its entity in one pass, because `&` goes first. |
| RenderCommon.EscapedIsSafe | render-html.js:192-199 | Escaped text contains no `<`, `>`, `"` or `'`, and every `&` starts one of the five entities. |
| RenderCommon.UnescapeEscapeForHtml | render-html.js:192-199 | Unescaping escaped text gives the text back, so nothing is escaped twice. |
| RenderCommon.NickIndexRange | render-html.js:121-128 | For any integer crc the class number is between 1 and 16; it equals the Euclidean `crc mod 16` plus one. |
| RenderCommon.ShortNameOfHandle | render-html.js:170-173 | A name ending in ` (@user:server.tld)` is cut at that suffix. |
| RenderCommon.ShortNameWithoutHandle | render-html.js:170-173 | Other names are kept whole. |
| RenderCommon.ShortNameRoundTrip | render-txt.js:47-51 | A one-line name followed by a handle suffix gives back the name. |
| RenderCommon.IsDayFileParts | render-html.js:18 | A day file is `dddd-dd-dd` in digits followed by the extension. |
| RenderCommon.DayNamesSpec | render-html.js:16-20 | The day names are sorted and are exactly the digit-shaped names whose file is listed. |
| RenderCommon.MapUpToSpec | render-html.js:111 | Mapping with a throwing function yields every result, or the first error. |
| RenderHtml.DaysSpec | render-html.js:16-21 | `days` is newest first, strictly so for distinct files, and holds exactly the listed day files. |
| RenderHtml.ReverseSorted | render-html.js:20-21 | Reversing a sorted list gives a newest-first list of the same names. |
| RenderHtml.AlreadyDoneSpec | render-html.js:22-30 | A day is skipped exactly when it has an `.html` file and two other days with pages are newer. |
| RenderHtml.NavLinks | render-html.js:38-39 | `prev` is the next older day and `next` the next newer one, each null at its end, and the links of neighbours point back at each other. |
| RenderHtml.UtcClockSpec | render-html.js:164-166 | `HH:MM` are two-digit UTC hours and minutes that bracket the time of day. |
| RenderHtml.RenderEvent | render-html.js:158-162 | A row is rendered exactly for text and emote messages. A missing `content` throws a `TypeError`, and any other msgtype throws "unknown event message type". |
| RenderHtml.RenderEventSpec | render-html.js:163-181 | The row's id is `L` and its index. Name and title are the escaped short name and sender id, and the class is that of the short name. Text messages get angle brackets. The contents are the formatted body for HTML messages and the escaped body otherwise. |
| RenderHtml.RoomDaysSpec | render-html.js:32-42 | The day loop succeeds exactly when every day not already done renders. On failure it throws the first failing day's error. On success it writes exactly those days' pages. |
| RenderHtml.RoomWithSpec | render-html.js:32-50 | A room is empty exactly when it has no days. Otherwise, after its day pages, a redirect to the newest day is written as its index. |
| RenderHtml.RenderRoomDays | render-html.js:32-42 | The loop computes `DaysRun`. |
| RenderHtml.RenderRoom | render-html.js:14-50 | One room's pass computes `RoomOf`. |
| RenderHtml.RenderRooms | render-html.js:13-51 | The room loop computes `RoomsRun`. |
| RenderHtml.RenderSiteAsWritten | render-html.js:12-58 | The script as written: an empty room's `return` ends everything. |
| RenderHtml.RenderSite | render-html.js:12-58 | The corrected script: an empty room is passed over. |
| RenderHtml.RoomsRunContinuing | render-html.js:13-51 | Without the early `return`, the run fails exactly when some room fails, with the first failure. Otherwise it writes exactly every room's pages. |
| RenderHtml.ReturnIsPrefix | render-html.js:44-46 | As written, the run is the corrected run cut off after the first empty room. |
| RenderHtml.SiteRunSpec | render-html.js:12-58 | The corrected site writes every room's pages and then the channel index, and fails only when a room fails. |
| RenderHtml.SiteRunAsWritten | render-html.js:44-58 | As written, the writes are a prefix of the corrected ones. They are equal when no room is empty. After an empty room the channel index is not written. |
| RenderHtml.NeverReturns | render-html.js:44-46 | The corrected loop never ends early. |
| RenderHtml.OneEmptyRoom | render-html.js:44-58 | With a single empty room the script as written writes nothing, and the corrected one writes the channel index. |
| RenderTxt.FirstMonthsSpec | render-txt.js:19-26 | The map's keys, in insertion order, are distinct and are exactly the months of the days. |
| RenderTxt.DaysOfMonthSpec | render-txt.js:20-26 | A month's list holds exactly the days of that month. |
| RenderTxt.GroupByMonth | render-txt.js:19-26 | The grouping loop computes `Grouped`. |
| RenderTxt.GroupedSpec | render-txt.js:19-26 | Groups follow first appearance, one per month present. Every day is in the group of its first seven characters, and no other. |
| RenderTxt.GroupedEntry | render-txt.js:19-26 | A group is in the map exactly when its month occurs and its days are that month's days. |
| RenderTxt.DoneMonthsSpec | render-txt.js:27-31 | A month is skipped exactly when its `.txt` file exists and is not the last month file listed. |
| RenderTxt.RenderedSpec | render-txt.js:12-31 | A month is regenerated exactly when some day file of it exists and it is not a skipped month. |
| RenderTxt.WithoutSpec | render-txt.js:31 | Deleting months keeps exactly the groups of other months, in order. |
| RenderTxt.DeleteMonths | render-txt.js:27-31 | The deletion loop computes `Without`. |
| RenderTxt.TimestampSpec | render-txt.js:44-45 | The stamp is `HH:MM:SS.0mmm`: 13 characters whose fields read back to the local time of day. |
| RenderTxt.EventLine | render-txt.js:38-52 | A line is written exactly for text and emote messages. A missing `content` throws a `TypeError`, and another msgtype throws "unknown event message type". |
| RenderTxt.EventLineFields | render-txt.js:46-52 | A line holds, in order, the bracketed time, the sender's short name in angle brackets and a newline, `/me ` exactly for an emote, the body, and a blank line. |
| RenderTxt.EventLineLayout | render-txt.js:52 | A line starts with `[` and ends with a blank line. |
| RenderTxt.Sections | render-txt.js:35-37 | Day `i`'s section is its header, with a leading blank line unless `i` is the first day, followed by its lines. |
| RenderTxt.DaySectionLayout | render-txt.js:36-52 | A section starts with its header and ends in a newline. |
| RenderTxt.ChunksSpec | render-txt.js:33-56 | The month's text exists exactly when every day renders. Otherwise the first failing day's error is thrown. |
| RenderTxt.MonthTextSpec | render-txt.js:33-56 | A month renders exactly when all its days' events render. Otherwise it throws the error of the first day that does not. |
| RenderTxt.MonthTextLayout | render-txt.js:36-55 | A month file starts with its first day's name and a newline, and ends with a newline. |
| RenderTxt.PushEach | render-txt.js:38-53 | The push loop appends, in order, what the line function gives for each element, or stops at its first throw. |
| RenderTxt.PushLines | render-txt.js:38-53 | The event loop appends exactly the day's lines, or throws the first error. |
| RenderTxt.PushDay | render-txt.js:36-53 | One day appends its section to `contents`. |
| RenderTxt.RenderMonth | render-txt.js:34-55 | The loop over a month's days computes `MonthText`. |
| RenderTxt.PerformedSpec | render-txt.js:9-58 | A run of steps stops at the first throw, and writes exactly what the steps before it wrote. |
| RenderTxt.MonthWriteNames | render-txt.js:55-58 | Month files of a room are named by their month and never collide with its `index.html`. |
| RenderTxt.RenderMonths | render-txt.js:33-58 | The month loop writes the regenerated months and then the room index. |
| RenderTxt.RenderRoom | render-txt.js:10-58 | One room's pass computes `Room`. |
| RenderTxt.RenderRooms | render-txt.js:9-59 | The room loop performs each room in order. |
| RenderTxt.RenderSite | render-txt.js:8-59 | The script computes `Site`. |
| RenderTxt.RoomOfThrows | render-txt.js:33-56 | A room fails exactly when one of its regenerated months fails, with that month's error. |
| RenderTxt.RoomOfWrites | render-txt.js:33-58 | A room that does not fail writes exactly the regenerated months, each with its text, and writes its index last. |
| RenderTxt.RunsInOrder | render-txt.js:8-9 | Running rooms in sorted order fails or succeeds as each room does, and writes what they write. |
| RenderTxt.SiteSpec | render-txt.js:8-59 | The site fails exactly when a room fails. Otherwise it writes exactly every room's month files and index. |
| SearchPage.CollapseSpec | scripts/search.js:187 | `replace(/\s+/g, ' ')` keeps the visible characters in order and leaves single plain spaces only. |
| SearchPage.CollapseIdempotent | scripts/search.js:187 | Collapsing twice is collapsing once. |
| SearchPage.UnquoteDoubled | scripts/search.js:188 | Reading the doubled-quote text as an SQL string literal gives the text back. |
| SearchPage.Blank | scripts/search.js:189 | Each character in the class becomes a space, and every other character is kept. |
| SearchPage.EscapeForSqlSpec | scripts/search.js:185-190 | Read as an SQL literal, the corrected escape is the collapsed query with `:`, `-` and `;` blanked. No operator character is left, and the only spaces left are plain ones. |
| SearchPage.EscapeForSqlAsWrittenKeepsMinus | scripts/search.js:189 | The range `[:-;]` keeps `-`: `a-b` comes out unchanged, where the corrected escape gives `a b`. |
| SearchPage.Lines | scripts/search.js:97-99 | One rendered line per row, in order. |
| SearchPage.SearchSession.constructor | scripts/search.js:13-48 | The sort order is `newest` exactly when it was stored so; nothing is searched yet. |
| SearchPage.SearchSession.Fail | scripts/search.js:101-113 | The error is shown: "too many requests" for a rate-limit message, `error: ` and the message otherwise. "Load more" is shown as before. |
| SearchPage.SearchSession.AppendRows | scripts/search.js:97-99 | Appends the page's lines to the output. |
| SearchPage.SearchSession.Start | scripts/search.js:59-75 | A changed sort order is stored and resets the offset. A search from offset 0 clears the output and becomes the previous search. |
| SearchPage.SearchSession.Show | scripts/search.js:85-100 | The next offset is the offset plus 30. More results exist exactly when 31 rows came back, and the page is cut to 30. `no results` is shown for an empty first page. |
| SearchPage.SearchSession.Search | scripts/search.js:49-114 | `search(query, offset)` leaves the page in the state `Searched` describes. The query goes to the database through the escape `esc`. The page's own is `AsWritten`, which sends `a-b` as `a-b`; `Corrected` is the fixed escape. |
| SearchPage.SearchSession.StartSearch | scripts/search.js:44-46 | The search button searches from offset 0. |
| SearchPage.SearchSession.LoadMore | scripts/search.js:133-135 | "Load more" repeats the previous search from the next offset. |
| SearchPage.TrimTwice | scripts/search.js:50-67 | The stored previous search is already trimmed, so reloading it trims to the same query. |
| SearchPage.SearchedGuards | scripts/search.js:50-57 | A blank query changes nothing. A trimmed query under three characters shows "error: must be at least 3 characters" and changes nothing else. |
| SearchPage.SearchedFirst | scripts/search.js:65-100 | A search from offset 0 whose query is long enough shows the page the database answers, after the search is started. |
| SearchPage.SortChangeRestarts | scripts/search.js:59-63 | Changing the sort order is a search from offset 0 under the new order. |
| SearchPage.FirstPage | scripts/search.js:65-100 | A new search shows exactly the first 30 rows, or `no results`, and offers more exactly when more rows exist. |
| SearchPage.NextPage | scripts/search.js:59-135 | After the first `m` rows, "load more" shows exactly the next 30, and offers more exactly when rows remain. |
| SearchPage.LoadsNext | scripts/search.js:133-135 | One more press keeps that paging state, 30 rows further on. |
| SearchPage.PagingSpec | scripts/search.js:49-135 | After a search and `k` presses of "load more", the first `30 * (k + 1)` rows are shown exactly, and "load more" shows exactly when more exist. This holds for either escape, since the paging does not depend on the pattern. |

## Left out

- Network calls are not modelled: `api`/`fetch`, the bearer token, the 30-second timeout, `getMembers` and the space discovery over `Promise.all` (run.mjs:43-127). API responses are inputs; the member list is one `fetched` map per room.
- The concurrency of `Promise.all` over rooms is not modelled. Rooms are independent except for the semaphore, which is modelled as a sequential state machine over any order of calls.
- The context request and its retry with `limit=0` (run.mjs:158-243) are not modelled. Ingestion starts from a given token and name map.
- `JSON.stringify` and `JSON.parse` are not modelled. Stringify is a function parameter assumed to give one line per event, and day files are kept parsed.
- Directory listings are given as sequences in the order the file system returns them. Writes made by a script are not fed back into listings it reads later.
- The markup of `renderDay`, `renderSidebar` and `renderRoom` (render-html.js:94-156) is not modelled. Neither is `makeIndex` (render-txt.js:61-85), whose month list is read after the month files are written. Pages are datatypes carrying the values those templates use.
- `postprocessHTML` with JSDOM, and linkification by anchorme (render-html.js:69-92,183-188), are foreign libraries. The crc-32 of a nick is an uninterpreted function.
- `date.toString()` in the title of a timestamp depends on the local time zone and is left out. The local clock of render-txt.js:44-45 is the UTC time shifted by an offset function.
- `renderLine` and `renderEvent` of scripts/search.js:145-172 (DOM fragments and markup) are not modelled. Their nick class and escaping are the shared ones.
- The sql.js worker, `localStorage`, `history.replaceState` and the DOM elements are not modelled. The database is a function from query to rows, and the page elements are fields of `SearchSession`.
- SQLite writes, `makeDb`, `split-db.sh` and `execFileSync` are not modelled. The outcome of a room says whether rows are inserted and what watermark is written.
- `run.js`, `scripts/make-dbs.js`, `resources/logs.js` and `webpack.config.js` are not part of this model.
- Edits.ApplyModifications: the source shares event objects between input and output, so an edit also changes the caller's array. The model returns new values and does not capture that aliasing; it keeps one content per position, which is what the shared objects amount to within one call.
- IrcImport.Classify: `Date.parse(tsString + 'Z')` (irc-logs-to-fake-json.js:46) is the parameter `parse`. The stamp plus `Z` is in ECMAScript's date-time format `YYYY-MM-DDTHH:mm:ssZ`. IrcImport.ParsesStamps pins down only the stamps whose fields are in range: a calendar date, an hour of 0 to 23, and minutes and seconds of 0 to 59. What the engine makes of other fields, such as `24:00:00` or 31 February, is left to the parameter.
- IrcImport.StampDayFile: a year of `0000` to `0999` is printed unpadded by `${year}`, so such a stamp's file name is shorter than its written date. The lemma covers years from 1000.
- IrcImport.ClassifyDayFile: `${year}` prints a year below 1000 unpadded, so the lemma covers only lines whose year is from 1000. The line `0999-01-01T12:00:00 #c <n> hi` goes in `999-01-01.json`, not in `0999-01-01.json`.
- SearchPage.SearchedGuards: JavaScript strings are sequences of UTF-16 code units, and the model's strings are sequences of Unicode scalar values. The guard `query.length < 3` (scripts/search.js:55) counts characters here. A query holding a character above U+FFFF is one shorter in the model than in JavaScript, so a query of one emoji and one letter is refused here but searched by the page.
- Strings.Sort: the default `sort()` compares UTF-16 code units, and the model compares characters. The two orders differ only when names hold characters above U+FFFF: JavaScript sorts them before U+E000..U+FFFF, and the model sorts them after.
- Calendar.TsToDayShape: the shape is stated for four-digit years only. Years before 1000 or after 9999 produce names of other lengths, and the model computes them as JavaScript does.
- RenderTxt.TimestampSpec: only valid times are covered. An invalid date prints `NaN` fields, which the model computes but states nothing about.

## Findings

| source | as written | input that shows it | evidently intended | confidence | as-written member | corrected member |
|---|---|---|---|---|---|---|
| render-html.js:44-46 | `return` on a room with no day files ends the whole script, so later rooms and the channel index are never rendered | room list `["a", "b"]` where `a` has no `.json` day files | `continue` to the next room, then write the channel index | high, not executed | RenderHtml.RenderSiteAsWritten, RenderHtml.SiteRunAsWritten, RenderHtml.OneEmptyRoom | RenderHtml.RenderSite, RenderHtml.SiteRunSpec |
| scripts/search.js:189 | the class `[:-;]` is the range from `:` to `;`, which holds only those two characters, so `-` is not blanked despite the comment | query `a-b` is sent as `a-b` | `-` is blanked like `:`, and the query is sent as `a b` | high, not executed | SearchPage.EscapeForSqlAsWritten, SearchPage.EscapeForSqlAsWrittenKeepsMinus | SearchPage.EscapeForSql, SearchPage.EscapeForSqlSpec |
