# auto-backup-seq, modelled in Dafny

auto-backup-seq is a console tool that backs up request logs from a Seq
server. This project models its core logic in Dafny and proves properties of
that model.

- **Backup.** `SeqQuery.QueryAsync` pages through the events of a time window
  and streams them into a JSON array file.
- **Scheduled cycle.** `SchedulerService.StartAsync` computes the window from
  configured offsets, runs the backup, picks the newest archive file, maps its
  events into `RequestLog` records and pushes them to a webhook with retries.
- **Webhook.** `WebhookPayloadSender.SendLogsAsync` guards the push and
  classifies its outcome.
- **Mapping and reports.** `SeqJsonLogReader` maps a raw Seq event onto the
  fixed-schema `RequestLog` through typed lookups in the event's property
  bag. It also computes the analysis report: top routes, status breakdown,
  slowest requests, hourly volume, most active staff and companies, and
  average duration per route.
- **Archive index.** `SchedulerService.GetAvailableDates` and
  `GetFilesForDate` list the archive by day, month, year or ISO week, and
  look files up by such a key.
- **Export.** `ExportHelper` renders a record list as CSV and as an HTML
  table.

The model is deterministic. The clock (`now`), the server's replies, the
directory listing, the file contents and the webhook's answers are
parameters. Delays are recorded as data, not waited for.

## Modules

| file | module | models |
|---|---|---|
| base.dfy | Base | Option, Result, the exceptions, Int32/Int64 ranges, 32-bit wrap-around, `IsSuccessStatusCode` |
| text.dfy | Text | digits, decimal text, `TrimEnd`, `string.Split`/`Join`, `StringBuilder.AppendLine` |
| calendar.dfy | Calendar | `DateTime` (Gregorian day numbers, `AddMinutes`, ISO 8601 week numbering), the formats `yyyy-MM-dd HH:mm:ss`, `yyyy-MM-dd` and `o`, and their parsing |
| json.dfy | JsonValues | raw JSON values and `TryGetProperty` |
| uri_escape.dfy | UriEscape | `Uri.EscapeDataString` (sections 2.1 and 2.3 of RFC 3986 over UTF-8) |
| grouping.dfy | Grouping | LINQ `GroupBy`/`Distinct`, stable `OrderBy`/`OrderByDescending`, `Take`, `Where` |
| config.dfy | Config | `AppConfig`, `SchedulerConfig`, `WebhookConfig` with their defaults |
| request_log.dfy | RequestLogModel | `RequestLog` and its property defaults |
| log_reader.dfy | SeqJsonLogReader | the `GetProp*` lookups, `MapToLogEntry` and the element filter |
| analysis.dfy | LogAnalysis | the aggregates of `AnalysisLog` |
| seq_query.dfy | SeqQuery | the `QueryAsync` loop, with a class for the JSON array writer |
| webhook.dfy | WebhookPayloadSender | `SendLogsAsync` |
| scheduler.dfy | SchedulerService | one pass of `StartAsync`, with its retry loop as a method |
| archive.dfy | ArchiveIndex | `GetAvailableDates`, `GetFilesForDate` and the `Directory.GetFiles` pattern match |
| export.dfy | ExportHelper | `ExportToCsv`, `ExportToHtml` |

## Model

| member | source | states |
|---|---|---|
| SeqJsonLogReader.Accept | AutoBackupSeq/SeqJsonLogReader.cs:206-208 | a same-named Value is taken only if it has the wanted kind and range; TryGetInt32/64 throw exactly when the Value is not a number |
| SeqJsonLogReader.FindFirstNone | AutoBackupSeq/SeqJsonLogReader.cs:204-210 | the scan finds nothing (null / 0) exactly when every entry passes |
| SeqJsonLogReader.FindFirstDecides | AutoBackupSeq/SeqJsonLogReader.cs:204-210 | the first entry that does not pass decides the lookup: its value, or its exception |
| SeqJsonLogReader.FirstStringWins | AutoBackupSeq/SeqJsonLogReader.cs:202-211 | GetPropString returns the Value of the first entry named `name` whose Value is a string, skipping earlier entries that do not qualify |
| SeqJsonLogReader.FindFirstNoThrow | AutoBackupSeq/SeqJsonLogReader.cs:213-233 | a bag in which no same-named Value has the wrong kind never makes a lookup throw |
| SeqJsonLogReader.GetDateTime | AutoBackupSeq/SeqJsonLogReader.cs:182 | the timestamp is read exactly when it is a string ParseIso accepts (a date alone, a date with HH:mm, or a date with HH:mm:ss and an optional fraction, each time with an optional "Z" or an offset "+hh:mm" or "+hh"); the record keeps the text's calendar date and time of day, with the offset ignored and the fraction dropped |
| SeqJsonLogReader.ReadTextsSpec | AutoBackupSeq/SeqJsonLogReader.cs:183-193 | the text fields are read iff no text lookup throws, and then each is the found string or its default |
| SeqJsonLogReader.ReadLongsSpec | AutoBackupSeq/SeqJsonLogReader.cs:195-197 | the 64-bit fields are read iff no lookup throws, and then each is the found number or 0 |
| SeqJsonLogReader.Assemble | AutoBackupSeq/SeqJsonLogReader.cs:180-198 | the record holds exactly the values read, field by field |
| SeqJsonLogReader.MapToLogEntry | AutoBackupSeq/SeqJsonLogReader.cs:176-199 | a mapped event had Properties and a Timestamp; the record gets a fresh id and a valid timestamp |
| SeqJsonLogReader.MappedFields | AutoBackupSeq/SeqJsonLogReader.cs:176-199 | each field of a mapped record is its lookup's result or default: TraceId…UserAgent "-", RequestBody "", StatusCode from GetPropInt, Duration/RequestBytes/ResponseBytes into Duration/RequestSize/ResponseSize |
| SeqJsonLogReader.EmptyPropertiesGiveDefaults | AutoBackupSeq/Models/RequestLog.cs:12-32 | an event with an empty property bag maps to the record's defaults: "-" text, "" RequestBody, zero numbers, a fresh id |
| SeqJsonLogReader.TidyEventMaps | AutoBackupSeq/SeqJsonLogReader.cs:176-233 | an event whose bag holds numbers under the numeric names always maps |
| SeqJsonLogReader.TextStatusCodeFails | AutoBackupSeq/SeqJsonLogReader.cs:213-222 | a StatusCode held as a string makes the mapping throw instead of defaulting |
| SeqJsonLogReader.MissingStaffIdIsAbsent | AutoBackupSeq/SeqJsonLogReader.cs:189 | a missing StaffId becomes "-" |
| SeqJsonLogReader.NumericStaffIdIsAbsent | AutoBackupSeq/SeqJsonLogReader.cs:189 | a StaffId held as a number becomes "-" |
| Calendar.ParseDateOnly | AutoBackupSeq/SeqJsonLogReader.cs:182 | a timestamp that is a date alone reads as midnight of that day |
| Calendar.ParseMinutes | AutoBackupSeq/SeqJsonLogReader.cs:182 | a timestamp with hours and minutes only, with or without "Z" or an offset, reads as that minute with second 0 |
| Calendar.ParseFormatIsoZone | AutoBackupSeq/SeqJsonLogReader.cs:182 | a timestamp with seconds and any zone ("", "Z", "+hh:mm", "+hh") reads back as its date and time of day |
| Calendar.ParseHoursOffset | AutoBackupSeq/SeqJsonLogReader.cs:182 | an offset of hours only, "+05", is read, with or without seconds |
| SeqJsonLogReader.KeptElements | AutoBackupSeq/SeqJsonLogReader.cs:38-44 | the filter keeps exactly the objects with a Properties member: every kept element is one, every such element of the input is kept, and the result is the input filtered in order (Grouping.Where) |
| SeqJsonLogReader.ReadLogElements | AutoBackupSeq/SeqJsonLogReader.cs:38-44 | the loop's result equals MapKept: dropped elements are skipped, kept ones are mapped in order |
| SeqJsonLogReader.MapKeptIsMapEachOfKept | AutoBackupSeq/SeqJsonLogReader.cs:38-44 | filtering while mapping is mapping the filtered elements |
| SeqJsonLogReader.MapKeptCount | AutoBackupSeq/SeqJsonLogReader.cs:38-44 | one record per kept element |
| SeqJsonLogReader.MapEachAt | AutoBackupSeq/SchedulerService.cs:40 | the k-th record of a mapped file is the k-th element mapped, with the k-th id |
| SeqJsonLogReader.UnfilteredMappingFailsOnStray | AutoBackupSeq/SchedulerService.cs:40 | without the filter, one element lacking Properties makes the whole file's mapping throw |
| LogAnalysis.AnalysisLog | AutoBackupSeq/SeqJsonLogReader.cs:51-174 | the report counts every record and its lists are cut at 5, 10, 5, 5 and 5 |
| LogAnalysis.RouteCountsComplete | AutoBackupSeq/SeqJsonLogReader.cs:67-70 | the per-route counts sum to the number of records; the top routes come by non-increasing count |
| LogAnalysis.TopRoutesKeepBusier | AutoBackupSeq/SeqJsonLogReader.cs:67-70 | a route busier than the fifth listed is listed |
| LogAnalysis.StatusBreakdownComplete | AutoBackupSeq/SeqJsonLogReader.cs:86-88 | the status counts sum to the number of records; codes are distinct and strictly ascending |
| LogAnalysis.SlowestDescending | AutoBackupSeq/SeqJsonLogReader.cs:102 | the slowest list is in non-increasing duration |
| LogAnalysis.SlowestAreSlowest | AutoBackupSeq/SeqJsonLogReader.cs:102 | a request slower than the tenth listed is listed |
| LogAnalysis.SlowestStable | AutoBackupSeq/SeqJsonLogReader.cs:102 | requests of equal duration keep their input order |
| LogAnalysis.ThreeRequestsSlowest | AutoBackupSeq/SeqJsonLogReader.cs:102 | durations 100, 500, 200 are listed as 500, 200, 100 |
| LogAnalysis.HourlyInDay | AutoBackupSeq/SeqJsonLogReader.cs:115-117 | hours are within 0..23, strictly ascending, and their counts sum to the number of records |
| LogAnalysis.MostActiveNamed | AutoBackupSeq/SeqJsonLogReader.cs:130-151 | the staff and company lists never hold "-" and come by non-increasing count |
| LogAnalysis.MostActiveKeepsBusier | AutoBackupSeq/SeqJsonLogReader.cs:130-151 | a named key busier than the fifth listed is listed |
| LogAnalysis.AverageIsSumOverCount | AutoBackupSeq/SeqJsonLogReader.cs:167-168 | each average is the route's total duration over its request count |
| LogAnalysis.MeanBounds | AutoBackupSeq/SeqJsonLogReader.cs:168 | an average lies between the fastest and the slowest request it covers |
| LogAnalysis.AverageDurationsDescending | AutoBackupSeq/SeqJsonLogReader.cs:169-170 | the averages listed are in non-increasing order |
| LogAnalysis.ThreeRequestsAverage | AutoBackupSeq/SeqJsonLogReader.cs:167-170 | three requests of one route averaging 800/3 ms give that single entry |
| SeqQuery.Headers | AutoBackupSeq/SeqQuery.cs:15-16 | the X-Seq-ApiKey header is sent iff the key is not blank, with the key verbatim |
| SeqQuery.ArrayWriter.WriteValue | AutoBackupSeq/SeqQuery.cs:50-51 | a value is appended to the open array |
| SeqQuery.ReadPage | AutoBackupSeq/SeqQuery.cs:39-57 | one loop pass does what Answer says and writes exactly that step's events |
| SeqQuery.QueryAsync | AutoBackupSeq/SeqQuery.cs:9-66 | the URLs requested, the events written, the array's closing and the total equal those of the run Run describes |
| SeqQuery.ClosedUnlessException | AutoBackupSeq/SeqQuery.cs:30-61 | the array is closed iff no exception ended the loop |
| SeqQuery.StopWritesWholePageOrNothing | AutoBackupSeq/SeqQuery.cs:39-57 | a stopping reply writes nothing or its whole page; a failure status writes nothing and closes the array |
| SeqQuery.ContinueAfterFullPage | AutoBackupSeq/SeqQuery.cs:50-57 | the loop goes on only after a successful, full, non-empty page, and continues after that page's last Id |
| SeqQuery.RequestsBounded | AutoBackupSeq/SeqQuery.cs:11 | the first request carries no afterId; at most one request per reply, plus the one that finds no reply |
| SeqQuery.RequestsFollowCursor | AutoBackupSeq/SeqQuery.cs:34-37 | each later request carries the Id of the previous page's last event |
| SeqQuery.UrlsAt | AutoBackupSeq/SeqQuery.cs:34-37 | the i-th URL is the base URL, trimmed of trailing "/", with count, start, end, the escaped filter and the i-th afterId |
| SeqQuery.OutputIsPagesInOrder | AutoBackupSeq/SeqQuery.cs:50-53 | the output is the answered pages concatenated in the order received |
| SeqQuery.RequestCount | AutoBackupSeq/SeqQuery.cs:32-58 | against a server of pages of at most PageSize, a normal run makes total / PageSize + 1 requests |
| SeqQuery.ShortLastPage | AutoBackupSeq/SeqQuery.cs:57 | pages of 2, 2, 1 with PageSize 2 give 3 requests and 5 events |
| SeqQuery.FullPagesThenEmpty | AutoBackupSeq/SeqQuery.cs:47-48 | when every page is full an extra request finds an empty page and ends the loop |
| UriEscape.UnescapeEscape | AutoBackupSeq/SeqQuery.cs:22 | percent-decoding the escaped filter gives back its UTF-8 octets |
| UriEscape.EscapedAlphabet | AutoBackupSeq/SeqQuery.cs:22 | the escaped filter holds only unreserved characters and "%" |
| UriEscape.EscapeInjective | AutoBackupSeq/SeqQuery.cs:21-22 | different filters escape differently |
| Calendar.ParseFormatRoundTrip | AutoBackupSeq/SeqQuery.cs:36 | the round-trip ("o") text of the window bounds parses back to the same date and time of day; its "Z" or offset is read but not applied |
| WebhookPayloadSender.SendLogsAsync | AutoBackupSeq/WebhookPayloadSender.cs:13-50 | a POST is made iff sending is on and the URL is not blank; true iff the POST got a 2xx response |
| WebhookPayloadSender.PostTarget | AutoBackupSeq/WebhookPayloadSender.cs:24-31 | the POST goes to the configured URL; the header is (Header, token) when Header is a valid name, ("Authorization", token) only when Header is null, and absent when Header is not a valid name; the token goes verbatim, a null token as ""; the body is the serialised list |
| WebhookPayloadSender.EmptyHeaderNameIsKept | AutoBackupSeq/WebhookPayloadSender.cs:25 | an empty header name is kept, not defaulted, and then no header is sent |
| WebhookPayloadSender.RedirectIsFailure | AutoBackupSeq/WebhookPayloadSender.cs:32-43 | 302 counts as failure and 204 as success |
| WebhookPayloadSender.Body | AutoBackupSeq/WebhookPayloadSender.cs:28 | the body is one JSON array with one element per record |
| WebhookPayloadSender.BodyReadsBack | AutoBackupSeq/WebhookPayloadSender.cs:28 | element i of the body carries every property of record i under its declared name |
| Calendar.AddMinutes | AutoBackupSeq/SchedulerService.cs:21-22 | adding minutes moves the instant by 60 seconds each, and fails exactly outside years 1 to 9999 |
| SchedulerService.WindowFromOffsets | AutoBackupSeq/SchedulerService.cs:20-22 | start = now + start offset and end = now + end offset, in UTC |
| SchedulerService.LatestIsNewest | AutoBackupSeq/SchedulerService.cs:31-34 | no file is picked iff there is no .json file; otherwise a .json file with the latest write time, the first of its ties in listing order |
| SchedulerService.StrayElementSkipsPush | AutoBackupSeq/SchedulerService.cs:39-40 | the newest file's elements are mapped without the filter, so one element without Properties fails the push |
| SchedulerService.RetrySend | AutoBackupSeq/SchedulerService.cs:42-54 | at most RetryCount attempts (none when it is ≤ 0); it stops at the first success; each failure is followed by a delay of RetryIntervalBySec×1000 ms wrapped to 32 bits; a negative delay below -1 throws, and -1 waits forever |
| SchedulerService.PushLatest | AutoBackupSeq/SchedulerService.cs:26-65 | PushMeets: the push is off exactly when sending is off, unlisted exactly when listing failed, no backup exactly when there is no "*.json" file; otherwise the newest file, skipped only when reading or mapping it failed, or pushed with its mapped records, at most the allowed attempts, earlier attempts all failed, delivered exactly when the last succeeded, one delay of RetryIntervalBySec * 1000 (wrapped to 32 bits) per failed attempt, exhausted only after RetryCount attempts, and a rejected (below -1) or endless (-1) delay only after the first attempt |
| SchedulerService.RunCycle | AutoBackupSeq/SchedulerService.cs:10-70 | a disabled scheduler does nothing; otherwise the window, the backup saved, a push meeting PushMeets, and whether the cycle sleeps IntervalMinutes, stalls or stops on an invalid interval |
| ArchiveIndex.LogsFileShape | AutoBackupSeq/SchedulerService.cs:78 | "logs_*.json" matches exactly the names starting "logs_" and ending ".json", at least 10 long |
| ArchiveIndex.FirstMatch | AutoBackupSeq/SchedulerService.cs:83 | the regex match is the leftmost position where `logs_dddd-dd-dd` starts |
| ArchiveIndex.GetAvailableDates | AutoBackupSeq/SchedulerService.cs:74-95 | the loop collects the dates and keys them as AvailableDates specifies |
| ArchiveIndex.DatesFound | AutoBackupSeq/SchedulerService.cs:81-86 | every parsed date comes from a listed file, and every listed file's parsed date is collected |
| ArchiveIndex.AvailableDatesListFileKeys | AutoBackupSeq/SchedulerService.cs:74-95 | a missing directory gives []; keys have no duplicates; every key is some listed file's key and every listed dated file's key is listed |
| ArchiveIndex.DayKeysAreDates | AutoBackupSeq/SchedulerService.cs:93 | a day key has the form yyyy-MM-dd, parses, and formats back to itself |
| ArchiveIndex.FilesForDateByPrefix | AutoBackupSeq/SchedulerService.cs:97-101 | a prefix holding "/" makes the search throw; a plain prefix returns exactly the listed names "logs_<prefix>…json" |
| ArchiveIndex.WeekKeysFailLookup | AutoBackupSeq/SchedulerService.cs:92 | every week key offered throws DirectoryNotFound when looked up |
| ArchiveIndex.ExampleWeekLookupThrows | AutoBackupSeq/SchedulerService.cs:100 | the key "2024/W1" searches in the subdirectory "logs_2024" |
| ArchiveIndex.WeekLookupExample | AutoBackupSeq/SchedulerService.cs:92-100 | one archive file of 2 January 2024 gives one week key, whose lookup throws while FilesForKey finds the file |
| ArchiveIndex.AvailableKeysHaveFiles | AutoBackupSeq/SchedulerService.cs:88-101 | every offered key, week keys included, names at least one file under FilesForKey |
| ExportHelper.ExportToCsv | AutoBackupSeq/ExportHelper.cs:13-24 | the text built equals Csv(data) |
| ExportHelper.HeaderColumns | AutoBackupSeq/ExportHelper.cs:16 | the header splits into the seven column names Timestamp,Route,Method,StatusCode,Duration,StaffId,CompanyId |
| ExportHelper.CsvLines | AutoBackupSeq/ExportHelper.cs:16-21 | the text splits into the header, one row per record in order, and the empty piece after the last newline |
| ExportHelper.CsvRowReadsBack | AutoBackupSeq/ExportHelper.cs:20 | a row splits back into the record's seven values in header order, and its timestamp parses back to the record's date and time |
| ExportHelper.CommaInRouteShiftsColumns | AutoBackupSeq/ExportHelper.cs:20 | a comma in Route makes eight values under a seven-column header |
| ExportHelper.ExportToHtml | AutoBackupSeq/ExportHelper.cs:26-40 | the text built equals Html(data) |
| ExportHelper.HtmlLines | AutoBackupSeq/ExportHelper.cs:29-38 | the text splits into the head, title and table head lines, one `<tr>` line per record in order, and the trailer |
| ExportHelper.CellsAmbiguous | AutoBackupSeq/ExportHelper.cs:35 | values are not escaped, so a value holding `</td><td>` renders like two cells |

## Left out

- Console output, colours and emoji are left out. `AnalysisLog` returns its report as data, and the exports return the text they would write.
- File writing, `Directory.CreateDirectory` and file streams are left out. The written file is the writer's buffer (`SeqQuery.ArrayWriter`) or the returned text.
- The archive file name `logs_{DateTime.Now:...}.json` that `QueryAsync` creates is not modelled. The clock is a parameter only for the scheduler window.
- Cancellation is not modelled. `RunCycle` is one pass of the `while` loop. Its `Next` value says whether the loop would sleep, stall in `Task.Delay(-1)` or leave by an exception.
- `ToLocalTime` is left out. A record keeps the timestamp text's calendar date and time of day (SeqJsonLogReader.cs:182); its offset is discarded rather than applied and its fraction of a second is dropped, and the DateTime kind that `Kind` and `o` would carry is not tracked beyond the window's "Z".
- Average durations are exact `real` values. `double` rounding and the `F1` console formatting are left out.
- `long` overflow in `Average`'s running sum is not modelled.
- `Guid.NewGuid()` is modelled as a construction number supplied by the caller (`RequestLog.id`).
- JSON parsing and serialising are left out. The model works on a parsed JSON value. A reply body is `Malformed`, `NullList` or a list of elements. A file's contents are parameters.
- A lone surrogate in a string is not modelled: Dafny's `char` holds Unicode scalar values only.
- HttpClient is left out. Exceptions are values (`Reply.Unreachable`, `PostOutcome.Threw`). Header-value validation beyond the header name's token check is not modelled. Content headers and the charset of `StringContent` are not modelled.
- Directory listing is a parameter (`Result<seq<FileInfo>>`, or names with `dirExists`). The order of the listing is taken as given, and subdirectories are not searched.
- `Directory.GetFiles` pattern matching is modelled case-sensitively with `*` and `?`. Win32's legacy `?` and `.` rules and case-insensitive matching on Windows are not modelled.
- `DateTime.TryParse` of the matched text uses the invariant culture with ':' as the time separator. Culture-specific parsing is left out, and so are Unicode digits that `\d` would also match.
- WebhookPayloadSender.PostTarget: a configured header name that is a content header, such as "Content-Type", is refused by `TryAddWithoutValidation` on the request headers although it is a token; the model refuses only names that are not tokens, so it sends that header.
- `Environment.NewLine` is "\n".
- Formatting dates by the current culture is left out. `{item.Timestamp:yyyy-MM-dd HH:mm:ss}` (ExportHelper.cs:20, 35) and `ToString("yyyy-MM-dd")`, `"yyyy-MM"` and `"yyyy"` (SchedulerService.cs:90-93) are modelled with the invariant culture (`FormatDateTime`, `FormatDate`, `FormatMonth`, `FormatYear`): ':' as the time separator and the Gregorian year. A culture with another time separator or calendar (th-TH writes the year 2567) gives other text.
- JSON numbers are integers only. Fractional and exponent numbers (12.5, 1e3) are not represented; `TryGetInt32`/`TryGetInt64` return false on them (SeqJsonLogReader.cs:216, 227), the same path an out-of-range number takes in the model, so the lookup moves on to the next entry.
- The UTF-8 byte order mark `File.WriteAllText(..., Encoding.UTF8)` writes before the HTML is left out.
- The CSV header is modelled as the seven column names joined by commas, which is the same text as the literal on ExportHelper.cs:16.
- `ReadAllLogsInFolderAsync`, `ReadFilesByDate` and `TestWebhookAsync` are drivers and are not modelled. The element filter of ReadAllLogsInFolderAsync (SeqJsonLogReader.cs:40) is modelled, together with its mapping loop.
- `ExportZipHelper`, `LogCleaner`, `ConfigLoader` and the menu in `Program.cs` are not part of this model. Config.dfy holds only the settings' datatype and defaults.
- `Task.Delay` is data: the retry delays are recorded, and the interval delay is the cycle's `Next`.
- SeqJsonLogReader.GetDateTime: the offset of a timestamp is not applied and its fraction of a second is dropped; of the ISO 8601 forms .NET reads, the separator is modelled as "T" only, and .NET's overall length limit, its limit on fraction digits and its range check on offsets (at most 14 hours) are not modelled; both offset forms .NET reads, "+hh:mm" and hours-only "+hh", are modelled, so the model accepts some long or far-offset texts that .NET refuses.
- LogAnalysis.AverageIsSumOverCount: the average is stated over exact rationals, not over `double`.

Where the code and a plain reading of its purpose differ, the model follows the code:

- `MapToLogEntry` is not total. A StatusCode, Duration, RequestBytes or ResponseBytes entry whose Value is not a number throws instead of defaulting to 0. So do a missing Timestamp and Properties that are not an array.
- When duplicate member names occur, a JSON lookup returns the last one.
- Every `break` in `QueryAsync` reaches `WriteEndArray`, so the array is closed after a failure status, an empty page and a short page alike. Only an exception leaves it open.
- A run against a server of full pages makes total / PageSize + 1 requests, not the ceiling of total / PageSize.
- A null event Id ends the cursor: the next request carries no afterId.

## Findings

| source | as written | input that shows it | evidently intended | confidence | as-written member | corrected member |
|---|---|---|---|---|---|---|
| AutoBackupSeq/SchedulerService.cs:92, 97-101 | week keys are formatted "<ISO year>/W<week>", and GetFilesForDate puts such a key into the search pattern "logs_<key>*.json"; the "/" makes Directory.GetFiles search a subdirectory "logs_2024" that does not exist, so it throws DirectoryNotFoundException | an archive holding "logs_2024-01-02_10-00-00.json" and no subdirectory "logs_2024" (the modelled listing holds no subdirectories), grouped by "week": the key offered is "2024/W1", and looking it up throws | every key GetAvailableDates offers finds the files it was computed from | not executed | ArchiveIndex.WeekKeysFailLookup | ArchiveIndex.AvailableKeysHaveFiles |
