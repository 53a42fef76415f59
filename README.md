# System-status monitor and backup log, modelled in Dafny

This project models the core of the server's system-status monitor in
`serverApi/backup.py`. The monitor covers:

- the cached machine sample (`_latest_status`) and the time of its last
  refresh (`_last_update_time`);
- the one-minute cache rule of `GetSystemStatusWithCache`;
- the update that samples the machine and appends one line to the backup log
  `serverData/backup.txt`;
- the background loop's wait until the next whole minute;
- the status report with its line count;
- the two readers, `get_historical_data(minutes)` and `get_all_available_data()`.
  Both take the log apart line by line, rebuild each timestamp, keep the lines
  that parse, and sort the records by timestamp text. The first also filters to
  a time window, and falls back to all records when the window holds none.

The project has six modules:

- `Wrappers`: `Option`.
- `Text`: Python's `str.strip`, `str.split` on one character, `str.join`, and
  Python's string order.
- `Timestamp`: second-precision datetimes, `strftime`/`strptime` with
  `"%Y-%m-%d %H:%M:%S"`, and the microsecond timeline that datetimes are
  compared and shifted on.
- `LogFormat`: one log line, both as written and as parsed.
- `History`: the two readers, as specification functions and as the loop
  methods themselves.
- `Monitor`: the class `SystemMonitor` holding the module's global state and
  the log, the next-minute wait, and scenarios on a freshly imported monitor.

Clock readings, machine samples and the success of file writes are parameters:

- A clock reading is an `int` count of microseconds since 0001-01-01 00:00:00.
- A sample is `Some(sample)`, or `None` when `GetSystemStatus` raises.
  The four values a sample logs are plain decimal numerals. psutil's
  percentages and the gigabyte figures rounded to two decimals are bounded, so
  their `str()` has no exponent, `inf` or `nan`, and no colon or newline.
- `writeOk` is false when `_write_to_backup_file` hits an exception and
  swallows it.

The log is the sequence of lines a reader sees, each with its newline. A file
whose reading raises is `Unreadable`.

The readers take the character that rejoins `parts[0..2]` into a timestamp as
a parameter. The code uses a space (`AsWrittenSep`); the comments above that
line describe a colon (`IntendedSep`). See "## Findings".

Two behaviours of the code are worth naming, because the model keeps them:

- `start_background_monitor` calls `_update_system_status`, which never sets
  `_last_update_time`, so a background update leaves the refresh time as it
  was (`SystemMonitor.BackgroundTick`, `Monitor.BackgroundThenRequest`).
- `GetSystemStatusWithCache` sets `_last_update_time` after the update even
  when sampling raised (`SystemMonitor.GetSystemStatusWithCache`,
  `Monitor.FailedFirstSample`).

## Model

| member | source | states |
|---|---|---|
| Text.TrimLeft | serverApi/backup.py:176 | what is left is a suffix of the line; everything dropped is whitespace; what is left does not start with whitespace |
| Text.TrimRight | serverApi/backup.py:176 | what is left is a prefix; everything dropped is whitespace; what is left does not end with whitespace |
| Text.Split | serverApi/backup.py:182 | `line.split(':')` gives one more piece than there are colons, and no piece holds a colon |
| Text.JoinSplit | serverApi/backup.py:182 | joining the pieces of a split with the separator gives back the string |
| Text.SplitJoin | serverApi/backup.py:182 | splitting a join of separator-free pieces gives back exactly those pieces |
| Text.StrLeTotal | serverApi/backup.py:202 | any two timestamp keys are comparable |
| Text.StrLeTrans | serverApi/backup.py:202 | the key order is transitive |
| Text.StrLeAntisym | serverApi/backup.py:202 | two keys each not after the other are the same text |
| Timestamp.Format | serverApi/backup.py:81 | `strftime("%Y-%m-%d %H:%M:%S")` is 19 characters: `-`, `-`, space, `:`, `:` at positions 4, 7, 10, 13, 16, and digits everywhere else |
| Timestamp.ParseTimestamp | serverApi/backup.py:186 | a text `strptime` accepts names a valid datetime whose `strftime` is that same text |
| Timestamp.ParseFormat | serverApi/backup.py:186-191 | reading back the text of any valid datetime gives that datetime |
| Timestamp.FormatOrder | serverApi/backup.py:202 | two timestamp texts compare as strings exactly as their datetimes compare |
| Timestamp.YearLength | serverApi/backup.py:171 | on the timeline, a year is 366 days when it is a leap year and 365 days otherwise |
| Timestamp.DayNumberOrder | serverApi/backup.py:189 | equal dates get equal day numbers, and an earlier date gets a smaller one |
| Timestamp.MicrosOrder | serverApi/backup.py:189 | `a <= b` on datetimes holds exactly when `a` is not later than `b` on the microsecond timeline |
| Timestamp.TextOrderIsTimeOrder | serverApi/backup.py:189-202 | sorting by timestamp text is sorting by time: text order and timeline order agree in both directions |
| LogFormat.FloatTextChars | serverApi/backup.py:192-195 | a numeral `float()` accepts is non-empty and made only of digits, a point and a sign |
| LogFormat.NumeralHasNoSeparator | serverApi/backup.py:83 | a written numeral has no colon and no edge whitespace, so it cannot disturb the split or the strip |
| LogFormat.LoggedValuesOf | serverApi/backup.py:55-60 | the writer is handed the cpu percent, memory used, memory percent and disk percent of the sample, in that order |
| LogFormat.StripBackupLine | serverApi/backup.py:83 | stripping a written line removes exactly its newline |
| LogFormat.WrittenLineSplits | serverApi/backup.py:83 | the stripped written line splits on ':' into 7 pieces: date plus hour, minute, second, then the four numbers in written order |
| LogFormat.ParseLine | serverApi/backup.py:176-199 | a line is Blank exactly when it strips to empty; it parses exactly when, stripped and split on ':', it has at least 7 pieces, the first three rejoined make a timestamp `strptime` accepts and `float()` accepts pieces 3 to 6, so 5- and 6-piece lines, bad timestamps and bad numbers are skipped; a parsed record is that time's text and pieces 3 to 6 in order |
| LogFormat.ParseFields | serverApi/backup.py:183-196 | fewer than 5 pieces is TooFewFields; with 5 or more, a rebuilt timestamp `strptime` rejects is BadTimestamp; it parses exactly when there are at least 7 pieces, the timestamp reads and pieces 3 to 6 are numerals, giving the rebuilt time and those four pieces |
| LogFormat.FieldsAt | serverApi/backup.py:190-196 | once the time is read: fewer than 7 pieces is MissingField (an IndexError on `parts[5]` or `parts[6]`, unless `float()` already failed on an earlier piece; the line is skipped either way); otherwise it parses exactly when `float()` accepts pieces 3 to 6, and the record is the time's text with those pieces |
| LogFormat.ReadBackLine | serverApi/backup.py:181-196 | with the ':' rejoin, every written line parses back to its own stamp and its four values |
| LogFormat.AsWrittenNeverParses | serverApi/backup.py:185-186 | with the space rejoin, no line at all parses: each one is Blank, TooFewFields or BadTimestamp |
| LogFormat.AsWrittenFieldsNeverParse | serverApi/backup.py:183-186 | colon-free pieces give TooFewFields when there are fewer than 5, and otherwise BadTimestamp |
| LogFormat.AsWrittenSkipsBackupLine | serverApi/backup.py:185-186 | a line the writer wrote parses with the ':' rejoin, but with the space rejoin it fails on its timestamp |
| History.ReadLine | serverApi/backup.py:176-199 | the loop body appends exactly the record the line's outcome keeps |
| History.CollectRecords | serverApi/backup.py:173-199 | the reading loop collects exactly the kept records of all lines, in file order |
| History.GetAllAvailableData | serverApi/backup.py:216-258 | the reader returns the sorted records of all parsed lines; a missing or unreadable file gives [] |
| History.GetHistoricalData | serverApi/backup.py:161-214 | the reader returns the sorted records in the window, or all records when the window holds none; a missing or unreadable file gives [] |
| History.InsertPermutation | serverApi/backup.py:202 | inserting one record adds exactly that record to the multiset |
| History.SortPermutation | serverApi/backup.py:202 | the sort returns a permutation of its input |
| History.InsertSorted | serverApi/backup.py:202 | inserting into a sorted list keeps it sorted |
| History.SortedBySort | serverApi/backup.py:202 | the sort's output is ordered by timestamp text |
| History.InsertWithKey | serverApi/backup.py:202 | an insertion puts the new record after every record already there with the same key |
| History.SortStable | serverApi/backup.py:202 | records with equal timestamps keep their file order: the sort is stable |
| History.SortOfSorted | serverApi/backup.py:252 | a list already in timestamp order comes out of the sort unchanged |
| History.CollectBound | serverApi/backup.py:173-199 | the window keeps no more records than there are non-blank lines |
| History.CollectAppend | serverApi/backup.py:175-199 | reading two stretches of lines keeps the records of the first and then those of the second |
| History.CollectFrom | serverApi/backup.py:190-196 | every kept record is the record of some parsed line |
| History.WindowedAmongAll | serverApi/backup.py:189 | every record the window keeps is also among all the records |
| History.WindowedInWindow | serverApi/backup.py:189 | every record the window keeps has a time at or after the cutoff |
| History.WindowIsFilter | serverApi/backup.py:175-196 | the window's list is exactly the list of all records with those before the cutoff left out, in file order: every parsed record at or after the cutoff is kept, and no other |
| History.InWindowOnlyCount | serverApi/backup.py:189 | a record occurs among the in-window records as often as in the whole list when it lies in the window, and not at all otherwise |
| History.WindowCounts | serverApi/backup.py:189-205 | counted record by record, the in-window records are those of the list that lie in the window; there are none exactly when no record of the list lies in the window |
| History.RecordsFromLines | serverApi/backup.py:226-252 | there are no more records than non-blank lines, nor more than lines; the result is a permutation of the collected records; each record comes from a line that parses to it |
| History.HistoricalSpec | serverApi/backup.py:171-210 | both results are sorted; the historical result is a sub-multiset of all records; when the window keeps something, the result is those records rearranged, each at or after the cutoff; otherwise it is exactly all records; a missing or unreadable file gives [] to both |
| History.HistoricalWindow | serverApi/backup.py:167-207 | every record of `get_all_available_data` that lies in the window is returned; when one does, the result holds exactly the in-window records, each as often as all records hold it; when none does, the result is exactly `get_all_available_data()` |
| History.CollectStamped | serverApi/backup.py:191 | every collected record's timestamp text reads back as a time |
| History.SortedChronological | serverApi/backup.py:202 | a list sorted by timestamp text and made of readable timestamps is in time order |
| History.SortedRecordsStamped | serverApi/backup.py:202 | the sort keeps every record's timestamp readable |
| History.ReadersChronological | serverApi/backup.py:202-252 | both readers return records in chronological order |
| History.RecordsAtMostLines | serverApi/backup.py:175-178 | neither reader returns more records than `data_points` counts lines |
| History.OutcomesSnoc | serverApi/backup.py:175 | a line added to the end of the file adds its own outcome to the end |
| History.AppendParsedLine | serverApi/backup.py:226-252 | a parsing line appended to a file adds exactly its record to what `get_all_available_data` returns |
| History.CollectSkip | serverApi/backup.py:197-199 | a line that does not parse contributes nothing, wherever it stands |
| History.SkippedLineIgnored | serverApi/backup.py:176-199 | a blank or malformed line anywhere in the file leaves both readers' results exactly as without it |
| History.CollectParsed | serverApi/backup.py:190 | when every line parses, the collected list is those lines' records in order |
| History.ReadBackLog | serverApi/backup.py:226-252 | with the ':' rejoin, a log written by the monitor reads back as the sorted records of all its writes, one per write |
| History.ReadBackInOrder | serverApi/backup.py:252 | writes made in time order read back exactly as written |
| History.AsWrittenReadsNothing | serverApi/backup.py:237-238 | with the space rejoin, both readers return [] whatever the file holds |
| History.NothingParsedNothingKept | serverApi/backup.py:197-199 | when no line parses, no record is kept |
| Monitor.Appended | serverApi/backup.py:82-83 | appending in mode 'a' makes the file's text the old text plus the line; it creates a missing file; it leaves the text ending in a newline; it adds one line to the count, or none when it continues a last line that had no newline |
| Monitor.AppendedCount | serverApi/backup.py:148-159 | `data_points` grows by one per line appended to a complete log, and stays 0 for an unreadable file |
| Monitor.WriteThenRead | serverApi/backup.py:81-83 | a line the monitor appends to a complete log is read back, with the ':' rejoin, as exactly one more record |
| Monitor.SystemMonitor.constructor | serverApi/backup.py:8-9 | at import, no status and no refresh time; the log is as found on disk |
| Monitor.SystemMonitor.WriteToBackupFile | serverApi/backup.py:69-86 | a successful write appends the formatted line; a failed write changes nothing; the cache is untouched |
| Monitor.SystemMonitor.UpdateSystemStatus | serverApi/backup.py:41-67 | a sample is cached and its line appended; when sampling raises, cache and log stay as they were; the refresh time is never touched |
| Monitor.SystemMonitor.GetSystemStatusWithCache | serverApi/backup.py:88-111 | it updates if and only if there is no refresh time or the last one is at least 60 s old. On an update the refresh time becomes `now`, even if sampling failed, and the status and log change as in the update. On a hit nothing changes. It returns the cached status |
| Monitor.SystemMonitor.BackgroundTick | serverApi/backup.py:121-132 | waits until the next whole minute, then updates as `_update_system_status` does, leaving the refresh time unchanged |
| Monitor.SystemMonitor.MonitorStatus | serverApi/backup.py:138-146 | `monitor_active` holds exactly when a status is cached; `last_update` is the refresh time; `data_points` is the log's line count, 0 when it is missing or unreadable |
| Monitor.NextMinute | serverApi/backup.py:124-125 | the next minute is a whole minute strictly after `now` and at most a minute later, and the whole minute before it is not after `now` |
| Monitor.NextMinuteWait | serverApi/backup.py:126-129 | the wait is positive and at most 60 s, so the sleep always happens; it is a full 60 s exactly when `now` is on a whole minute |
| Monitor.CacheScenario | serverApi/backup.py:97-111 | the first request samples; the second serves the cached sample unless 60 s have passed; each sample adds one line to a readable log, except that the first continues a last line left without its newline |
| Monitor.FailedFirstSample | serverApi/backup.py:107-109 | after a first sample that raises, requests within the next minute serve `None`, and the monitor is active only once a later minute has brought a sample |
| Monitor.BackgroundThenRequest | serverApi/backup.py:121-136 | after a background update alone the monitor is active but reports no refresh time, and the next request samples again |

## Left out

- `GetSystemStatus` (psutil sampling, the one-second CPU interval, rounding to GB): it reads the machine, so a sample is a parameter.
- Numbers are kept as the text `str()` writes; `float()` conversion to a binary double is not modelled.
- LogFormat.IsFloatText: it accepts only plain decimals. `float()` also accepts exponents, `inf`, `nan`, underscores and surrounding whitespace.
- Timestamp.ParseTimestamp: it accepts only the exact zero-padded width. `strptime` also takes one-digit fields and some whitespace.
- Timestamp.Format: years below 1000 are always padded to four digits. `strftime`'s `%Y` might print them unpadded on some platforms.
- Timestamp.ParseTimestamp: recognises ASCII digits only.
- `timedelta.total_seconds()` is exact on the integer microsecond timeline; float rounding is not modelled.
- History.GetHistoricalData: when `timedelta(minutes=minutes)` exceeds 999999999 days, or `datetime.now() - timedelta(minutes=minutes)` falls outside years 1 to 9999 on either side (a large positive or a large negative `minutes`), Python raises `OverflowError` and the reader returns []. Here the cutoff is just an integer before or after every valid time, so the reader filters or falls back to all records as usual.
- The writer's clock reading (`stamp`) is a separate parameter from the cache's `now`. The source reads the clock several times, so the model does not tie the two readings together.
- `last_update` is reported as the integer timeline value, not as an `isoformat()` string.
- `asyncio.sleep`, the infinite loop and the 60 s back-off after an exception in the loop: time passing is a parameter. `BackgroundTick` is one turn of the loop.
- Concurrency between the background task and requests is not modelled; each method runs to completion.
- The `print` calls, path building and `mkdir`.
- Universal-newline translation of `\r` and `\r\n` when the log is read: a log is its sequence of lines.
- A read that fails partway is modelled as `Unreadable` from the start, which gives the same [] and 0.
- Monitor.SystemMonitor.WriteToBackupFile: a write that raises after part of the line reached the file (a failed flush when the file is closed, say) is modelled as writing nothing. In the code the fragment stays in the file without its newline: `data_points` counts it, and the next append continues it into a line neither reader can parse.
- The `minutes` bound of 1 to 1440 applied by the HTTP handler in `serverApi/home.py` is not a precondition: `get_historical_data` accepts any integer.
- The HTTP routes, the AI client and the front-end are not part of this model.

## Findings

| source | as written | input that shows it | evidently intended | confidence | as-written member | corrected member |
|---|---|---|---|---|---|---|
| serverApi/backup.py:185 (also 237) | the timestamp is rebuilt as `f"{parts[0]} {parts[1]} {parts[2]}"`, joining hour, minute and second with spaces, then parsed with `"%Y-%m-%d %H:%M:%S"` | the line the writer appends, `2025-07-29 21:49:46:12.5:3.1:40.0:55.0`, rebuilds to `2025-07-29 21 49 46`, which `strptime` rejects, so the line is skipped; every line is, and both readers return [] | rejoin the pieces with ':' as the comments at lines 181 and 184 describe, so that every written line reads back as its record | not executed | LogFormat.AsWrittenSkipsBackupLine, History.AsWrittenReadsNothing | LogFormat.ReadBackLine, History.ReadBackLog |
