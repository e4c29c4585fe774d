# lift — a verified model of the workout log core

`lift` keeps a workout log in a plain text file. The log is split into days:
a line reading `YYYY-MM-DD` is a *header*, and the indented entry lines below
it belong to that day. The program has two kinds of command:

- `set`, `max`, `myo` and `down` log an exercise. Each one first makes sure the
  file has a header for today (`valid_date`), then appends one entry line.
- `scan` prints the log. It can be limited to a date range (`--range today`,
  `this-week`, `last-month`, …) and to lines that hold a search pattern.

This project models that core in Dafny and proves what it does. The modules
are:

- `Text` (`text.dfy`): decimal digits, the zero-padded and plain decimal text of
  a number with the value it reads back as, and `Contains`, the substring test
  of `str::contains`.
- `Calendar` (`calendar.dfy`): a proleptic Gregorian calendar written from
  scratch. It has leap years, month lengths, `from_ymd_opt`, stepping a day
  forward or back, adding a signed number of days, the chronological order,
  and the weekday (Monday first), counted from Monday 2024-01-01.
- `DateText` (`datetext.dfy`): the `YYYY-MM-DD` text of a date. It also has the
  strict reading of a line as a date, which decides what counts as a header.
- `Ranges` (`ranges.dfy`): `derive_bounds`. It turns a range selector and
  today's date into inclusive bounds, with `ThisMonth`'s December panic kept as
  a `Panic` result.
- `Scanner` (`scanner.dfy`): the `scan` loop. `Scanned` is a recursive
  specification over the lines. `ScanLines` is the loop, which threads
  `current_date` and is proved equal to that specification.
- `LogWriter` (`writer.dfy`): the `valid_date` loop and the entry templates.
  It also has the `down` total in `u16`, under both the debug rule (overflow
  panics) and the release rule (overflow wraps). A `LogFile` class holds the
  file's lines and updates them in place.

Three choices shape the model:

- The file is a sequence of lines and today's date is a parameter.
- Panics are a `Panic(message)` outcome.
- The two pattern branches of the scan loop are one loop over an optional
  pattern.

Two behaviours of the code are easy to miss:

- `valid_date` keeps the file unchanged when today's date text appears
  *anywhere* in a line, not only as a whole header line.
  - This holds even when the mention is inside an entry.
  - In that case a new entry can end up under an older header.
- The scan prints *every* header line, whatever the range. The range only
  filters the lines under a header.

## Model

| member | source | states |
|---|---|---|
| Text.Decimal | src/main.rs:228 | the `{}` text of an unsigned integer is a nonempty run of digits with no leading zero that reads back as the number |
| Text.PaddedOfValue | src/main.rs:112 | a fixed-width field of digits is the zero-padded text of its own value (the `%m`/`%d` round trip) |
| Text.ContainsFacts | src/main.rs:116 | `contains` finds the empty string and the string itself in any string, and finds a string inside anything built around it |
| Calendar.DaysInMonth | src/main.rs:162 | months have 28 to 31 days, February has 29 exactly in leap years and 28 otherwise |
| Calendar.FromYmd | src/main.rs:158 | `from_ymd_opt` gives the date exactly when it is a real calendar day |
| Calendar.Lexicographic | src/main.rs:199 | date comparison orders by year, then month, then day, and `<=` is `==` or `<` |
| Calendar.NextDay | src/main.rs:140 | the next day is a real day after the given one |
| Calendar.PrevDay | src/main.rs:162 | subtracting one day gives a real day before the given one |
| Calendar.NextPrevInverse | src/main.rs:140-141 | stepping a day forward and back, or back and forward, returns the same day |
| Calendar.AddDays | src/main.rs:152 | `d ± Duration::days(n)` is a real day, after `d` for positive `n`, before it for negative `n`, and `d` itself for zero |
| Calendar.AddDaysAdd | src/main.rs:152-153 | moving `m` days and then `n` days is moving `m + n` days |
| Calendar.Weekday | src/main.rs:146 | every real day has a weekday between Monday (0) and Sunday (6) |
| Calendar.WeekdayNext | src/main.rs:146 | the day after `d` is one weekday further on, Sunday wrapping to Monday |
| Calendar.WeekdayAnchors | src/main.rs:146 | 2024-01-01 is a Monday, 2023-12-31 and 2024-01-07 are Sundays |
| Calendar.RotateMod | src/main.rs:146 | going `n` places round the week from weekday `w` lands on `(w + n) mod 7` |
| Calendar.WeekdayShift | src/main.rs:152 | moving `n` days moves the weekday `n` places round the week |
| DateText.Format | src/main.rs:112 | the `%Y-%m-%d` text of a date with a four-digit year is ten characters |
| DateText.ParseDate | src/main.rs:195 | a line read as a date names a real day with a four-digit year |
| DateText.ParseFormat | src/main.rs:195 | a line is read as date `d` if and only if it is exactly the text of `d` |
| DateText.FormatParses | src/main.rs:112 | the text written for today reads back as today, so it is a header |
| DateText.FormatOfParse | src/main.rs:200 | the `to_string` of a header's date is the header line itself |
| DateText.HeaderShape | src/main.rs:195 | a header is ten characters and starts with a digit |
| Ranges.WeekOf | src/main.rs:146-147 | the Monday-based week of `d` runs from a Monday on or before `d` to the Sunday six days later, on or after `d` |
| Ranges.WeekSixDaysBack | src/main.rs:152-153 | the week holding `today - 6` is this week on a Sunday, and otherwise this week moved back seven days, ending before today |
| Ranges.DeriveBounds | src/main.rs:129-181 | only `ThisMonth` in December panics; no selector gives unbounded; every range has real bounds with start on or before end |
| Ranges.DayBounds | src/main.rs:133-143 | `Today` is the single day today and `Yesterday` the single day before it |
| Ranges.ThisWeekBounds | src/main.rs:144-149 | `ThisWeek` runs from a Monday on or before today to that Monday plus six days, on or after today |
| Ranges.LastWeekBounds | src/main.rs:150-155 | `LastWeek` is this week moved back seven days, ending before today, except on a Sunday, when it is this week |
| Ranges.ThisMonthCoversMonth | src/main.rs:156-165 | `ThisMonth` runs from the 1st to the last day of today's month (February 29 in leap years) and panics in December |
| Ranges.LastMonthCoversPreviousMonth | src/main.rs:166-176 | `LastMonth` covers the whole previous month, January wrapping to December of the previous year |
| Ranges.WorkedMonthBounds | src/main.rs:156-165 | in February 2024 `ThisMonth` ends on the 29th; on 2024-12-03 it panics |
| Ranges.WorkedLastWeek | src/main.rs:150-155 | on Monday 2024-01-08 `LastWeek` is 2024-01-01 to 2024-01-07 |
| Ranges.ThisMonthIntended | src/main.rs:159-162 | with the December branch live, the month always runs from its 1st to its last day |
| Scanner.LastHeader | src/main.rs:191-196 | the date in force after some lines is a real day with a four-digit year, read from the last header |
| Scanner.Scanned | src/main.rs:192-219 | the scan prints no more lines than it reads |
| Scanner.Kept | src/main.rs:192-219 | the printed lines are the lines at strictly increasing positions of the input |
| Scanner.ScannedIsSubsequence | src/main.rs:194-217 | the output is an in-order subsequence of the input lines |
| Scanner.KeptExactly | src/main.rs:194-217 | line `k` is printed if and only if the loop's test passes for it, with the last header above it as `current_date` |
| Scanner.RangeFilter | src/main.rs:212-214 | without a pattern, a non-header line is printed if and only if a header lies above it and that header's date is within the bounds, both ends included |
| Scanner.PatternFilter | src/main.rs:198-201 | with a pattern, an in-range non-header line is printed if and only if it holds the pattern or the header's date text |
| Scanner.HeadersAlwaysKept | src/main.rs:195-197 | every header is printed, whatever the range and pattern |
| Scanner.HeadersPreserved | src/main.rs:195-197 | the headers in the output are exactly the headers of the input, in order |
| Scanner.PreambleIgnored | src/main.rs:198 | a header-free preamble changes nothing that the rest of the log prints |
| Scanner.NothingWithoutHeader | src/main.rs:198 | lines before the first header are never printed |
| Scanner.UnfilteredPrintsAll | src/main.rs:179 | with no range and no pattern, a log that starts with a header is printed whole |
| Scanner.PatternNarrows | src/main.rs:200 | the output with a pattern is a subsequence of the output without one |
| Scanner.EmptyPatternIsNone | src/main.rs:200 | the empty pattern gives the same output as no pattern |
| Scanner.ScanLines | src/main.rs:191-217 | the loop prints exactly the lines of the specification `Scanned` |
| Scanner.Scan | src/main.rs:188-220 | the scan panics if and only if `ThisMonth` is asked for in December, and otherwise prints `Scanned` over the derived bounds |
| LogWriter.SumClosedForm | src/main.rs:255 | `n * (n + 1) / 2` is `1 + 2 + … + n` |
| LogWriter.DownTotalRange | src/main.rs:255 | in `u16` the total is right for up to 255 starting reps; a debug build succeeds exactly then |
| LogWriter.DownTotalWraps | src/main.rs:255 | from 256 starting reps a release build logs 128 instead of 32896, and a debug build panics |
| LogWriter.DownTotalWide | src/main.rs:255 | the total computed wide enough is `1 + 2 + … + n` for every `u16` start |
| LogWriter.EntryLine | src/main.rs:228 | an entry line starts with a space and holds the exercise's name |
| LogWriter.Render | src/main.rs:228-255 | rendering fails only for a `down` entry whose total overflows |
| LogWriter.RenderedEntry | src/main.rs:237 | an entry line is never read as a header, and a search for its exercise finds it |
| LogWriter.WorkedMax | src/main.rs:237 | `max bench 185` writes `    #max bench: [185lbs]` |
| LogWriter.WorkedSet | src/main.rs:228 | `set squat 3 5 225 2` writes `    #set squat: 3x5 [225lbs] (2 RIR)` |
| LogWriter.WorkedMyo | src/main.rs:246 | `myo curl 4 20 3 30` writes `    #myo curl: 4x20 [30lbs] (3 rests)`, weight before rests as in the written line |
| LogWriter.WorkedDown | src/main.rs:255 | `down dips 5 0` writes `    #down dips: 15 => 5 [0lbs]` |
| LogWriter.MentionsDate | src/main.rs:111-119 | the flag loop is set if and only if some line holds the date text |
| LogWriter.WithTodayHeader | src/main.rs:120-126 | `valid_date` only appends, and it adds either nothing or two lines |
| LogWriter.TodayHeaderIdempotent | src/main.rs:116-120 | after `valid_date` the log mentions today, so a second call on the same day appends nothing |
| LogWriter.AddedHeaderInForce | src/main.rs:125 | when a header is added, it is read as a header and is the last one, naming today |
| LogWriter.NoHeaderForToday | src/main.rs:116-120 | a log whose lines do not mention today has no header naming today |
| LogWriter.TodayHeaderKeepsDistinct | src/main.rs:120-126 | `valid_date` keeps the log at one header per day |
| LogWriter.LoggedKeepsHeadersDistinct | src/main.rs:248-255 | logging an entry keeps the log at one header per day |
| LogWriter.LastHeaderIsLatest | src/main.rs:195-196 | in a log whose days are in order, the last header names the latest day |
| LogWriter.TodayHeaderKeepsAscending | src/main.rs:120-126 | a header added on a day no earlier than the last one keeps the days in order |
| LogWriter.LoggedKeepsHeadersAscending | src/main.rs:248-255 | logging on a day no earlier than the log's last day keeps the days in strictly increasing order |
| LogWriter.LoggedAppends | src/main.rs:248-255 | logging keeps the old lines, puts the entry last, and adds one or three lines, or panics before writing |
| LogWriter.LoggedShowsToday | src/main.rs:250-255 | an entry logged to a log without today's date is the last line `scan --range today` prints |
| LogWriter.LogFile.constructor | src/main.rs:114 | the file holds the lines read |
| LogWriter.LogFile.EnsureTodayHeader | src/main.rs:110-127 | the file afterwards is `WithTodayHeader` of the file before |
| LogWriter.LogFile.Record | src/main.rs:248-255 | a failed render panics with the file unchanged; otherwise the file is the header-ensured file plus the entry line |

## Left out

- Command-line parsing with clap and the argument structs. Their integer widths survive as the `U8` and `U16` field types of `Entry`.
- File I/O. Reading, opening and writing are not modelled, and neither are their `expect` panics. The file is a sequence of lines.
- The newline details of `lines()` and `writeln!`. The appended `"\n{date}\n"` is modelled as a blank line followed by the date line, which is what it becomes when the file ends in a newline.
- The clock and time zones. Today's date is one parameter. The source reads the clock separately in `valid_date` and in every arm of `derive_bounds`, and twice in the `Today` arm, so a run across midnight can see two dates; the model cannot.
- The console echoes at lines 113, 222, 231, 240 and 249 print only. The one effect kept is that the echo at 249 computes the `down` total before anything is written, so an overflow panic leaves the file unchanged. The `myo` echo at 240 lays the line out differently from the line written at 246; the model renders the written line.
- chrono's date parser. A header is modelled as exactly `YYYY-MM-DD` with a real day. This is an assumption: `parse_from_str` may accept more, such as unpadded fields, and such lines would be headers in the program but not in the model.
- `NaiveDate::MIN` and `NaiveDate::MAX` are modelled as `Unbounded`, which every date lies within. The calendar has no year limits, so chrono's overflow at the ends of its range is not modelled.
- The weekday is counted from Monday 2024-01-01, not computed the way chrono computes it. The two agree on the anchors proved in `Calendar.WeekdayAnchors`, and every later step is proved to move one weekday.
- LogWriter.RenderedEntry, LogWriter.LoggedAppends, LogWriter.LoggedShowsToday, LogWriter.LoggedKeepsHeadersDistinct, LogWriter.LoggedKeepsHeadersAscending: an entry is one line in the model. The program writes the exercise name as given, so a name holding a newline becomes several lines when the file is read back, and one of them can be a header (`x\n2030-01-01\ny`). For such names these lemmas do not describe the program.
- Ranges.DeriveBounds: the `ThisMonth` and `LastMonth` arms (`ThisMonthBounds`, `LastMonthBounds`) carry no contract of their own. Their meaning is stated in `ThisMonthCoversMonth` and `LastMonthCoversPreviousMonth`.
- Ranges.ThisMonthIntended and LogWriter.DownTotalWide are the corrected definitions. `DeriveBounds`, `Scan` and `Render` keep the behaviour as written.

## Findings

| source | as written | input that shows it | evidently intended | confidence | as-written member | corrected member |
|---|---|---|---|---|---|---|
| src/main.rs:159-162 | the December branch is guarded by `if false`, so December asks `from_ymd_opt` for month 13 and `unwrap` panics | `scan log.md --range this-month` on 2024-12-03 | December runs from the 1st to December 31 | not executed | Ranges.WorkedMonthBounds | Ranges.ThisMonthIntended |
| src/main.rs:249, 255 | the total `(n * (n + 1)) / 2` is computed in `u16`; the product overflows from `n = 256` | `down x 256 0` | the total 1 + 2 + … + 256 = 32896 (a debug build panics, a release build writes 128) | not executed | LogWriter.DownTotalWraps | LogWriter.DownTotalWide |
