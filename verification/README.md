# Work-hours tracker: a Dafny model of its session logic

The tracker is a single browser page. Its Start and Pause buttons time one
work session at a time, and each finished session is stored as display
strings (date, start time, end time, duration). The page then shows a weekly
total and per-date totals, and its Export CSV button downloads the sessions.
This project models the logic behind those buttons in Dafny and proves
properties about it. It has four pieces:

- **Duration engine** (`duration.dfy`, module `Duration`). `calculateDuration`
  rounds the elapsed milliseconds to the nearest five minutes, halves up, and
  renders `"{h}h {m}m"`, or `"{m}m"` when there are no hours. The page reads
  such strings back by splitting on `h`/`m` and taking `Number(piece) || 0` of
  the first two pieces. Both readers are here: the one as written and a
  corrected one (see Findings).
- **Session lifecycle** (`sessions.dfy`, module `Sessions`). Start, Pause and
  Clear Data are pure transitions of a `Tracker`. A tracker holds an optional
  session in flight and the stored list of completed sessions. The clock
  reading and the user's answer to the confirmation are inputs. So is the
  locale formatting (`formatDate`/`formatTime`), passed as a `Locale`. Runs of
  button presses are modelled by `Run`.
- **Aggregation** (`aggregation.dfy`, module `Aggregation`). These are the
  weekly minutes, the per-date minutes and the weekly summary computed by
  `renderSessions`. The per-date totals are a sequence of `(date, minutes)`
  entries in first-seen date order, which is how the object's string keys
  keep insertion order. The totals take the duration reader as a parameter.
  The page uses `Duration.ParseMinutesAsWritten`.
- **CSV export** (`csv_export.dfy`, module `CsvExport`). This is the header
  row plus one row per session, with `"--"` for an empty end time or
  duration, fields joined by `,` and rows by a newline.

`text.dfy` (module `Text`) models the pieces of the JavaScript runtime that
the tracker relies on:

- printing a non-negative integer in a template literal;
- `Number(token) || 0` on a duration piece;
- `split` on a character class;
- `join` with a one-character separator.

`wrappers.dfy` holds the `Option` type.

## Model

| member | source | states |
|---|---|---|
| Duration.RoundedMinutes | js/script.js:14-15 | The rounded total is a multiple of five. Its milliseconds lie strictly above elapsed − 2.5 minutes and at most elapsed + 2.5 minutes, so an exact half rounds up. |
| Duration.RoundedMinutesUnique | js/script.js:15 | Every other multiple of five breaks those bounds, so the bounds characterise `Math.round(ms/60000/5)*5` completely. |
| Duration.FormatMinutes | js/script.js:16-20 | A rendered duration is non-empty and ends in `m`. It contains an `h` exactly when the total is at least 60 minutes. |
| Duration.FormatPieces | js/script.js:16-20 | Split at its unit letters, the rendering of a total under an hour is `[m, ""]`. From an hour up it is `[h, " " + m, ""]`, with h = total div 60 and m = total mod 60 both printed in decimal. |
| Duration.CalculateDuration | js/script.js:13-21 | For end ≥ start, the duration string reads back, under the corrected reader, as the rounded elapsed minutes. It carries an hours part exactly when that total is at least 60. |
| Duration.CalculateDurationExamples | js/script.js:13-21 | 47 elapsed minutes render as `"45m"`. 132 render as `"2h 10m"`. |
| Duration.ParseMinutesAsWritten | js/script.js:54-55 | The page's reader: split at `h`/`m`, first piece × 60 plus second piece, each through `Number(piece) \|\| 0`. A string with no unit letter at all is read as 60 times its number. |
| Duration.ParseMinutes | js/script.js:54-55 | The corrected reader: a string without a unit letter is read as its number of minutes, and one with an `h` is read as the page reads it. |
| Duration.ParseHoursMinutes | js/script.js:54-55 | The page's reader reads any `"{H}h {M}m"` as H × 60 + M, for every H and M (including M ≥ 60). |
| Duration.ParseMinutesOnly | js/script.js:54-55 | The page's reader reads any hour-less `"{N}m"` as 60 × N: N lands in the hours slot. |
| Duration.FormatRoundTripAsWritten | js/script.js:54-55 | The page's reader recovers a rendered total exactly when the total is 0 or at least 60 (both directions). A total strictly between 0 and 60 reads as 60 times itself. |
| Duration.MinutesOnlyMisread | js/script.js:54-55 | `"45m"`, the rendering of 45 minutes, is read by the page as 2700 minutes. The corrected reader gives 45. |
| Duration.FormatRoundTrip | js/script.js:54-55 | The corrected reader recovers every rendered total. |
| Text.NatToString | js/script.js:19-20 | `${n}` prints a non-empty string of decimal digits with no leading zero. |
| Text.DigitsValueOfNatToString | js/script.js:54-55 | Reading a printed number's digits gives the number back. |
| Text.NatToStringOfDigitsValue | js/script.js:54-55 | Printing the value of a canonical digit string gives the string back. |
| Text.NumberOrZero | js/script.js:54-55 | `Number(piece) \|\| 0`: a piece that is not, after trimming white space, a string of decimal digits reads as 0, and so does a blank piece. |
| Text.NumberOrZeroReadsRendered | js/script.js:54-55 | `Number(piece) \|\| 0` on a printed number, after any leading white space, gives the number. |
| Text.TrimStart | js/script.js:54 | The result is a suffix of the input. Everything dropped is white space, and the result does not start with white space. |
| Text.TrimEnd | js/script.js:54 | The result is a prefix of the input. Everything dropped is white space, and the result does not end with white space. |
| Text.Split | js/script.js:54 | `split(/[hm]/)` returns at least one piece and no piece holds a separator. A string without separators comes back whole. |
| Text.SplitAtSeparator | js/script.js:54 | Splitting `a + [c] + b` at separator c, where a holds no separator, yields a followed by the pieces of b. |
| Text.Join | js/script.js:155 | `join` with a one-character separator: the pieces in order with the separator between neighbours. Its properties are stated by `Text.JoinSeparator` and `Text.SplitJoin`. |
| Text.JoinSeparator | js/script.js:155 | A join holds the separator exactly when there are at least two pieces or some piece holds it already (both directions). |
| Text.SplitJoin | js/script.js:155 | Splitting on c a join with c of pieces that do not contain c gives the pieces back. |
| Sessions.Start | js/script.js:103-111 | With a session in flight, Start changes nothing and warns AlreadyActive. When idle, it sets the session in flight to (now, formatDate(now)) without a warning. The stored list is unchanged either way. |
| Sessions.SaveSession | js/script.js:28-32 | Saving grows the stored list by one. The old records stay in place and the new record is last. |
| Sessions.Pause | js/script.js:115-133 | When idle, Pause changes nothing and warns NoActiveSession. Otherwise it appends exactly one record and keeps the earlier ones. The record has the date of the session in flight, the formatted start and end times, and `calculateDuration(start, now)` as its duration. The session in flight is then cleared. |
| Sessions.CompletedReads | js/script.js:122-129 | The duration of the record a Pause builds reads back, under the corrected reader, as the rounded elapsed minutes. |
| Sessions.PauseStores | js/script.js:122-131 | A Pause from a session in flight stores the old list followed by exactly the completed record. |
| Sessions.Clear | js/script.js:138-146 | A confirmed clear empties both the stored list and the session in flight, whatever the state was. An unconfirmed one changes nothing. Neither warns. |
| Sessions.Completed | js/script.js:122-129 | The record a Pause builds: the date of the session in flight, its formatted start, the formatted end and `calculateDuration(start, now)`. Its read-back is stated by `Sessions.CompletedReads`. |
| Sessions.Run | js/script.js:103-146 | The state after the button presses of a run, one handler after another. It is defined for every run in which each Pause finds the clock at or past the start of its session; its properties are stated by the lemmas below. |
| Sessions.WellTimedCanRun | js/script.js:115-122 | A run whose clock never runs backwards, also relative to the session already in flight, goes through: every Pause in it finds the clock at or past its start. |
| Sessions.RunAppendOnly | js/script.js:28-32 | Over any run without a confirmed clear, the stored list only grows, and every earlier record stays at its index. |
| Sessions.RunAfterClear | js/script.js:138-146 | A confirmed clear inside a run discards everything before it. The run ends where the presses after the clear lead from an empty tracker. |
| Sessions.CycleThen | js/script.js:103-133 | From idle, a Start at s and a Pause at e ≥ s followed by further presses go through exactly when those presses go through from the state the cycle leaves (both directions), and then end where they lead. |
| Sessions.StartPauseCycle | js/script.js:103-133 | From idle, Start at s then Pause at e ≥ s store exactly one record: (formatDate(s), formatTime(s), formatTime(e), calculateDuration(s, e)). No session is left in flight. |
| Sessions.ClockSetBack | js/script.js:103-133 | A second session that starts before the first one ended still goes through, although its clock ran backwards, and both records are stored in order. |
| Sessions.StartTwiceWarns | js/script.js:104-107 | A second Start right after a first one leaves the state unchanged and warns. |
| Aggregation.Contribution | js/script.js:53-55 | The minutes one session adds to both totals: none for a falsy duration, otherwise what the reader makes of it. Stated in use by `Aggregation.EmptyDurationsIgnored` and `Aggregation.WeeklyMinutesAppend`. |
| Aggregation.WeeklyMinutes | js/script.js:40-56 | `weeklyMinutes` after the loop over the stored sessions. Its relation to the per-date totals is `Aggregation.SumOfDailyTotals`. |
| Aggregation.AddToDay | js/script.js:58 | Adds m minutes to a date's entry, starting from 0 for a date not yet keyed, in a map that keeps its keys in insertion order. Its contract is split over the four `AddToDay…` lemmas below. |
| Aggregation.DailyTotals | js/script.js:41-60 | `dailyDurations` after the loop. It is characterised against the independent `FirstSeen` and `DayMinutes` by `Aggregation.DailyTotalsDates` and `Aggregation.DailyTotalsMinutes`. |
| Aggregation.AddToDayDates | js/script.js:58 | Adding to a date already keyed keeps the list of dates. Adding to a new date appends it at the end. |
| Aggregation.AddToDaySum | js/script.js:58 | Adding m minutes to any date raises the sum over all dates by exactly m. |
| Aggregation.AddToDayEntry | js/script.js:58 | With distinct dates, the entry of the date added to grows by m. Every other entry keeps its date and minutes, at the same index. |
| Aggregation.AddToDayNew | js/script.js:58 | A date not yet present is appended at the end with m minutes, and the earlier entries are untouched. |
| Aggregation.DailyTotalsDates | js/script.js:41-60 | The per-date dates are those of the sessions with a duration, each once, in first-seen order. |
| Aggregation.DailyTotalsMinutes | js/script.js:41-60 | Each per-date total equals the sum of its date's session minutes. A date not listed has no minutes. |
| Aggregation.SumOfDailyTotals | js/script.js:40-60 | The weekly total equals the sum of the per-date totals. |
| Aggregation.EmptyDurationsIgnored | js/script.js:53-59 | Dropping the sessions with an empty duration leaves the weekly total and the per-date totals unchanged. |
| Aggregation.WeeklyMinutesAppend | js/script.js:53-56 | One more session adds exactly its contribution to the weekly total. |
| Aggregation.WeeklySummary | js/script.js:63-64 | The summary's hours × 60 + remainder equals the weekly total, with remainder < 60. |
| Aggregation.RecordContribution | js/script.js:122-129 | The record a Pause builds contributes the rounded elapsed minutes under the corrected reader. Under the page's reader it contributes 60 times that when the total is between 0 and 60 exclusive. |
| Aggregation.PauseAddsRoundedMinutes | js/script.js:53-56 | A Pause raises the corrected weekly total by the rounded elapsed minutes. The page's weekly total rises by the same amount when that is 0 or at least 60, and by 60 times that amount otherwise. |
| CsvExport.OrDash | js/script.js:152 | An empty field shows as `"--"` and any other field shows unchanged. |
| CsvExport.Row | js/script.js:152 | One session's four CSV fields, `"--"` standing for a falsy end time or duration. Its shape is stated by `CsvExport.Lines` and `CsvExport.ExportFields`. |
| CsvExport.ExportCsv | js/script.js:155 | The export text: each row's fields joined by `,`, and the rows joined by a newline. Its line and field structure is stated by `CsvExport.ExportLines` and `CsvExport.ExportFields`. |
| CsvExport.Lines | js/script.js:150-153 | There is one line per session plus the header. The first line is the header fields joined by `,`, and line i+1 is session i's row joined by `,`. |
| CsvExport.HeaderText | js/script.js:151 | The header line is `Date,Start Time,End Time,Duration`. |
| CsvExport.ExportLines | js/script.js:150-155 | When no field holds a newline, the export splits into exactly one line more than there are sessions: the header, then the rows in storage order. An empty list exports the header alone. |
| CsvExport.ExportFields | js/script.js:152-155 | When no field holds a newline or a comma, each session's line splits into its four fields, with `"--"` for a missing end time or duration. |

## Findings

| source | as written | input that shows it | evidently intended | confidence | as-written member | corrected member |
|---|---|---|---|---|---|---|
| js/script.js:54-55 | The first piece of the split duration is always taken as hours. | A 45-minute session (09:00 to 09:47) is stored as `"45m"`, which is read as 2700 minutes and adds 45 hours to the weekly total and the chart. | A duration without `h` is a count of minutes, so every duration reads back as the rounded total. | high; not executed | Duration.MinutesOnlyMisread | Duration.FormatRoundTrip |

The as-written reader is `Duration.ParseMinutesAsWritten`. The
corrected reader is `Duration.ParseMinutes`, and the session model
(`Sessions.CompletedReads`, `Duration.CalculateDuration`) states its contract
with it.
`Duration.FormatRoundTripAsWritten` gives the exact extent of the bug, and
`Aggregation.PauseAddsRoundedMinutes` shows its effect on the weekly total.
The intent is plain from the code itself. `calculateDuration` writes `"45m"`
for 45 minutes (js/script.js:19), and the reader's
`parts[0] * 60 + parts[1]` (js/script.js:55) takes the first piece as hours.
So the writer and the reader disagree on every hour-less duration.

## Left out

- DOM work is not modelled. This covers the table rows, the `output` text,
  the weekly-summary text, `alert` and the `confirm` dialog
  (js/script.js:37-51, 65, 105, 112, 117, 134, 143). It is presentation only.
  The alert is modelled as the `Warning` of a step, and the answer to
  `confirm` as a boolean input.
- `localStorage` and JSON are not modelled (js/script.js:2, 25, 31, 111, 133,
  140-141). Storage is the in-memory `Tracker`, and an absent key is the empty
  list or no session in flight. The reload of the session in flight at page
  load, and the trip of its start instant through a JSON string and back to a
  `Date`, are also left out. The instant survives that trip exactly.
- `formatDate`/`formatTime` (js/script.js:5-11) depend on the runtime's locale
  tables. They are the opaque functions of a `Locale` parameter.
- `renderChart` (js/script.js:70-100) is a foreign charting library plus
  `toFixed(2)` float formatting. Its input, the per-date totals, is modelled.
- The Blob, object-URL and anchor-click download (js/script.js:156-163) are
  browser I/O.
- Negative intervals are not modelled: `CalculateDuration` and `Pause` require
  the clock at Pause to be at or past the start. The code has no handling for
  end < start.
- Duration.RoundedMinutes: computed in exact integer arithmetic. The page
  divides in floating point, which agrees for any realistic elapsed time.
  Clock readings are taken within the range of a JavaScript `Date`
  (±8.64e15 ms). In that range every total is an exact integer and prints in
  plain decimal, as `Text.NatToString` does; the exponent form `${n}` uses
  from 1e21 up is not modelled.
- Text.NumberOrZero: reads only blank-padded unsigned decimal integers. Other
  forms that `Number` accepts are read as 0: sign, fraction, exponent,
  hexadecimal, octal or binary prefix, `Infinity`. Durations the page writes
  never contain them.
- Aggregation.AddToDay: JavaScript orders object keys that look like array
  indices (such as `"12"`) numerically, ahead of the others. Dates from
  `formatDate` (such as `"Mon 3-2"`) never look like that, so plain insertion
  order is modelled. The page's `dailyDurations = {}` also inherits
  `Object.prototype`: for a date equal to an inherited property name (such as
  `"toString"` or `"constructor"`) the `|| 0` fallback picks up the inherited
  function and the `+` concatenates strings, and assigning to `"__proto__"`
  creates no key at all. `AddToDay` treats every date as a fresh key, because
  `formatDate` never produces such names.
- CsvExport.ExportLines: the line structure is proved only for fields without
  a newline. CsvExport.ExportFields: the field structure is proved only for
  fields without a comma either. The code does no quoting, so other fields
  would break the CSV shape.
- Sessions.Run: defined only for runs in which every Pause finds the clock at
  or past the start of the session it ends (`CanRun`). The clock may otherwise
  be set back freely, between sessions or after a clear.
