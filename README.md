# Binance aggTrades backfill and liveness probe, modelled in Dafny

This project models two small Python tools.

- `binance.py` backfills aggregate trades from the Binance REST API into a CSV file.
  `main` validates two dates shaped like `DD-MM-YYYY HH:MM:SS` and picks a window
  length. It then builds a `BinanceAnalyzer`. The analyzer shifts both dates by a
  timezone offset found in the text of the start date's `timetz()`. Its `run` walks
  `range(start_time, end_time, interval)`. For each window it requests the trades
  and appends one CSV row per trade after a header row.
- `checkerror.py` probes the exchangeInfo endpoint in an endless loop. At every
  epoch boundary (more than 300 s since the epoch began) it lowers the pause
  between probes by 0.1 s, or ends the loop once that pause is 0. The first
  failed probe also ends the loop.

Files:

- `wrappers.dfy` holds the `Option`, `Result` and `Outcome` datatypes.
- `pytext.dfy` models the Python string operations the tools use:
  - `str.find`;
  - `split(c)[-1]` and `split(c)[0]`;
  - `int()` on a string of digits.
- `binance.dfy` models `binance.py`. The CSV file is a `seq<CsvRow>` field of the
  `BinanceAnalyzer` class. The aggTrades endpoint is a function from
  (symbol, start, end) to a `Response`. The platform's date parsing enters as the
  naive millisecond timestamps of the two dates and the `timetz()` text of the
  start date.
- `checkerror.dfy` models `checkerror.py`. The pause is counted in whole tenths of
  a second. Its values after `round(sleep, 1)` are exactly 1.0, 0.9, ..., 0.0.
  The clock and the probe answers come in as one `Event` per turn of the loop.
  `Exec` is the reference semantics and `ProbeLoop` is the imperative loop proved
  equal to it.

Quirks of the code that the model keeps, and proves:

- `date_tz.find("+")` is truthy unless `+` is the first character. So west of
  UTC the "`+`" branch is taken: the text is not split at `+`, and the result is
  the clock hour of the date itself, not a negative offset (`DeltaWestOfUtc`).
- `input()` always returns a `str`, so `isinstance(interval, int)` is false and
  the interval is always 30 s (`MainIntervalIs30`).
- The last window is not clamped to the end time (`LastWindowOvershoots`).
- `check_data` accepts impossible dates such as day 39, and ignores anything
  after the 19th character (`CheckDataLoose`, `CheckDataIgnoresTail`).
- `timedelta.seconds` leaves out whole days (`DayWrapHidesElapsedTime`).

## Model

| member | source | states |
|---|---|---|
| PyText.Find | binance.py:41 | `str.find`: -1 exactly when the character is absent; otherwise the index of its first occurrence |
| PyText.AfterLast | binance.py:42-43 | `split(c)[-1]`: the suffix after the last `c`, free of `c`; the whole text when `c` is absent |
| PyText.BeforeFirst | binance.py:42-43 | `split(c)[0]`: the prefix before the first `c`, free of `c`; the whole text when `c` is absent |
| PyText.ParseInt | binance.py:42-43 | no contract of its own; `int()` on unsigned ASCII digit strings, read back by `ParseZeroPadded`, `ParsePad2` and `TimetzDeltaNeverNegative` (signs, spaces and underscores are under "Left out") |
| PyText.ZeroPaddedDigits | binance.py:40 | a zero-padded field of any width is that many ASCII digits, and spells `n` whenever `n` fits the width |
| PyText.ParseZeroPadded | binance.py:40-43 | `int()` inverts zero-padded printing: for every width of at least one digit and every `n` that fits, parsing the field gives `n` back |
| PyText.ParsePad2 | binance.py:40-43 | a two-digit field of `str()` of a `datetime.time` is two digits and reads back as the number written |
| Binance.GetTransactionsToJson | binance.py:106-126 | no contract of its own; `SkippedWindow` states that a failed request writes nothing, and `BinanceAnalyzer.Run` that one request is made per window |
| Binance.ToRecord | binance.py:142-152 | no contract of its own; `ColumnsFollowPayloadKeys` states which payload key fills each field |
| Binance.WriteRow | binance.py:92-103 | no contract of its own; `RecordColumns` states the row it writes for a record |
| Binance.Windows | binance.py:132-133 | empty exactly when `range` yields nothing; the first window starts at `start`; every window is `step` long and starts short of `stop` (below it for a positive step, above it for a negative one); the grid `start + i*step` is stated by `WindowsAt` |
| Binance.WindowRows | binance.py:135-137 | no contract of its own; the `if not json_data: continue` guard, whose effect `SkippedWindow` and `BinanceAnalyzer.WriteItems` state |
| Binance.RunRows | binance.py:132-153 | no contract of its own; the rows of a sequence of windows, stated by `RunRowsAppend`, `RunRowsCount` and `SkippedWindow` |
| Binance.RunRowsStep | binance.py:132-137 | a non-empty `range` puts its first window first, and that window's rows come before those of the windows after it |
| Binance.RowsFrom | binance.py:132-153 | no contract of its own; the rows of the loop from one value of `range` on, which `RowsFromWindows` equates with `RunRows` |
| Binance.RowsFromWindows | binance.py:132-153 | walking `range` value by value, as the loop does, writes the same rows as the whole window list |
| Binance.LoopStep | binance.py:132-153 | one turn of the loop (one request, then that window's rows) keeps the rows and requests done so far, followed by those still to come, equal to those of the whole run |
| Binance.CsvFile | binance.py:129-153 | no contract of its own; the file a run leaves behind, which `BinanceAnalyzer.Run` is proved to write |
| Binance.ColumnsFollowPayloadKeys | binance.py:139-153 | column `c` of a trade's CSV row holds the value of the `c`-th payload key (`a p q f l T m M`), a missing key giving None |
| Binance.RecordColumns | binance.py:77-103 | `writerow` on the record's dictionary writes its eight fields in the header's column order |
| Binance.WindowsAt | binance.py:132-133 | the i-th window of `range(start, stop, step)` is `[start+i*step, start+i*step+step)`, and it exists exactly when `start+i*step < stop` |
| Binance.WindowsContiguous | binance.py:132-133 | each window is `interval` long and begins where the previous one ends |
| Binance.WindowsCover | binance.py:132-133 | every instant of `[start_time, end_time)` falls inside some window |
| Binance.WindowsDisjoint | binance.py:132-133 | no two windows overlap |
| Binance.LastWindowOvershoots | binance.py:132-133 | the last window starts before the end time and ends at or after it |
| Binance.UnclampedExample | binance.py:132-133 | 50 s in 30 s windows gives two requests, the second ending at 60 s |
| Binance.RunRowsAppend | binance.py:132-153 | the rows for two consecutive runs of windows are the rows of each, in order |
| Binance.SkippedWindow | binance.py:135-137 | a window whose request failed or returned an empty array writes nothing, and the windows after it are unaffected |
| Binance.RunRowsCount | binance.py:139-153 | one data row of eight cells per trade in the responses |
| Binance.DeltaEastOfUtc | binance.py:38-45 | for an offset `+hh:mm` the delta is `hh` hours in milliseconds and the minutes are dropped |
| Binance.DeltaWestOfUtc | binance.py:38-45 | for an offset `-hh:mm` the delta is the clock hour of the time, positive, in milliseconds |
| Binance.DeltaNeverNegative | binance.py:41-45 | unless the text begins with `+`, a found delta is never negative, given the unsigned `int()` of the model; over `timetz()` texts see `TimetzDeltaNeverNegative` |
| Binance.TimetzDeltaNeverNegative | binance.py:38-45 | on every `HH:MM:SS±hh:mm` text an offset is found and it is never negative, east or west of UTC |
| Binance.FindDeltaTimezone | binance.py:38-45 | the only error is ValueError, and a found delta is a whole number of hours in milliseconds; its values are stated by `DeltaEastOfUtc` and `DeltaWestOfUtc` |
| Binance.GetTimestamp | binance.py:52-58 | no contract of its own; `IntervalWins` and `ZeroIntervalFallsThrough` state its two branches |
| Binance.IntervalWins | binance.py:56-57 | a non-zero interval is returned in milliseconds, whatever the date |
| Binance.ZeroIntervalFallsThrough | binance.py:56-58 | an interval of 0 is ignored; the date's timestamp is used, and with no date the call raises TypeError |
| Binance.Shifted | binance.py:32-33 | no contract of its own; a date's timestamp plus the start date's delta, the end points the constructor sets and `RunMain` states its result with |
| Binance.InitTimes | binance.py:31-34 | the delta is the one found from the start date, both ends are moved by it so the range keeps its length, and the interval is the given seconds in milliseconds, never 0 |
| Binance.BinanceAnalyzer.constructor | binance.py:23-34 | both ends are shifted by the one delta found from the start date, so the range keeps its length; the interval is in milliseconds |
| Binance.BinanceAnalyzer.CreateCsvFile | binance.py:61-74 | the file holds exactly the header row |
| Binance.BinanceAnalyzer.AddRowToCsv | binance.py:77-103 | one row is appended and the earlier rows stay as they were |
| Binance.BinanceAnalyzer.Run | binance.py:129-153 | the file is the header followed by the rows of every window in order, and exactly one request is made per window, in order |
| Binance.BinanceAnalyzer.RunWindows | binance.py:132-153 | the loop appends the rows of every window of `range` in order and makes exactly one request per window, in order |
| Binance.BinanceAnalyzer.ProcessWindow | binance.py:133-153 | one turn of the loop body keeps "rows and requests so far, then those still to come" equal to the whole run's, with one window fewer to come |
| Binance.BinanceAnalyzer.RequestWindow | binance.py:106-126 | the data returned is the response to that window, and exactly that one request is logged |
| Binance.BinanceAnalyzer.WriteItems | binance.py:135-153 | a None or empty response adds nothing; otherwise one row per item, in order |
| Binance.MatchPrefix | binance.py:159 | no contract of its own; `re.match` of the class pattern, characterised by `MatchPrefixSpec` |
| Binance.MatchPrefixSpec | binance.py:157-159 | `re.match` of a one-character-per-class pattern holds exactly when each leading character is in its class |
| Binance.CheckData | binance.py:156-161 | it passes or fails with ValueError, nothing else; which texts pass is stated by `CheckDataSpec` |
| Binance.CheckDataSpec | binance.py:156-161 | `check_data` passes exactly the texts of the written-out date shape and raises ValueError otherwise |
| Binance.ShapedMatches | binance.py:157-159 | a text of the date shape matches every class of the pattern |
| Binance.MatchesShaped | binance.py:157-159 | a text matching every class of the pattern has the date shape |
| Binance.CheckDataIgnoresTail | binance.py:157-159 | the verdict depends only on the first 19 characters |
| Binance.CheckDataWellFormed | binance.py:156-161 | the example date of the error message passes |
| Binance.CheckDataLoose | binance.py:157 | impossible dates (day 39, month 19, hour 29, minute 69) pass |
| Binance.CheckDataYearFirst | binance.py:156-161 | a year-first date raises ValueError |
| Binance.ClampInterval | binance.py:178 | the interval passed on always lies in 10..180; an in-range value is kept, any other becomes 30 |
| Binance.CoerceInterval | binance.py:172 | no contract of its own; `MainIntervalIs30` and `RunMain` state that the str answer of `input()` leads to an interval of 30 |
| Binance.MainIntervalIs30 | binance.py:171-178 | for any text typed at the prompt, the interval is 30 s |
| Binance.RunMain | binance.py:164-181 | an invalid start or end date raises ValueError before anything is written; an unreadable offset raises ValueError; otherwise the file is that of a run over the shifted range in 30 000 ms windows |
| CheckError.ProbeLoop | checkerror.py:10-30 | the imperative loop stops with the same outcome, after the same actions, as the reference semantics `Exec` |
| CheckError.ElapsedSeconds | checkerror.py:15 | `.seconds` lies in 0..86399 and is the whole seconds elapsed when less than a day has passed |
| CheckError.Iterate | checkerror.py:15-30 | a turn stops exactly at one of the two `break`s: a failed probe, or a boundary with `sleep` already 0; its actions are counted by `CountTurn` |
| CheckError.Exec | checkerror.py:14-30 | no contract of its own: the reference semantics that `ProbeLoop` is proved equal to and that the lemmas below are about |
| CheckError.CountTurn | checkerror.py:15-30 | each turn `Iterate` computes probes once unless it ends the loop before probing, pauses once exactly when it lowers `sleep`, and a turn that goes on has lowered `sleep` by its pauses and ends with the probe followed by a sleep of the new length |
| CheckError.ExecAccounting | checkerror.py:12-28 | the final `sleep` lies between 0 and the starting value and is the starting value less one tenth per 60 s pause; the loop ends exhausted only at 0; while it runs, each turn probed once |
| CheckError.TurnThenRest | checkerror.py:15-30 | a turn of `Iterate` that goes on, followed by sleeps at most its `sleep` that never increase, gives a trace whose sleeps never increase |
| CheckError.SleepsDescend | checkerror.py:17-30 | the sleeps performed never increase and lie between the final value and the starting value |
| CheckError.AnsweredProbesExhaust | checkerror.py:14-30 | with every probe answering, the loop runs on while it has crossed at most `sleep` boundaries, each lowering `sleep` by 0.1 s and moving the epoch start, with one probe per turn; the next boundary ends it with 0 after exactly `sleep` pauses; turns between boundaries are allowed |
| CheckError.ElevenBoundariesFromStart | checkerror.py:11-22 | from 1 s with every probe answering, ten boundaries leave `sleep` at 0.0 and the eleventh ends the loop after ten pauses, however many turns lie between them |
| CheckError.FailedProbeStops | checkerror.py:26-28 | a failed probe ends the loop in its own turn and reports that turn's `sleep`, decremented first on a boundary |
| CheckError.StoppedStaysStopped | checkerror.py:21-28 | after a `break`, later events change nothing |
| CheckError.ExecConcat | checkerror.py:14-30 | running over two stretches of events is running the second from where the first left off |
| CheckError.FailureInThirdEpoch | checkerror.py:15-28 | two good epochs, of any number of turns, and a failure on the third boundary report 0.7 s |
| CheckError.DayWrapHidesElapsedTime | checkerror.py:15 | `.seconds` drops whole days: a day and 100 s after the epoch start is not a boundary |

## Left out

- HTTP: URL construction and the request itself are left out. Each aggTrades response is an input. A `RequestException` is `RequestFailed`. A decoded body is a list of JSON objects.
- JSON bodies that are not a list are left out, for example an error object; `run` would iterate over its keys. Decode errors of `req.json()` are left out too.
- pydantic validation and coercion in `BinanceObject` are left out; a payload value goes into the CSV unchanged. A missing key or a value pydantic rejects would raise `ValidationError`, which the model does not raise.
- JSON floats are not modelled; `Json` has integers, booleans, strings and null.
- File I/O is left out. This includes the file name built from `datetime.now()`, the `./csv_data` directory, and the textual CSV encoding. The file is its sequence of rows.
- `strptime`, `timestamp()`, `astimezone()` and `timetz()` are platform calls. The naive millisecond timestamps of the dates and the `timetz()` text are inputs. A `strptime` ValueError on a date that `check_data` passes (day 39) is therefore not modelled.
- Binance.GetTimestamp: `int(round(ts * 1000))` on a float timestamp is taken as the given integer millisecond value.
- Binance.BinanceAnalyzer.constructor: it requires a readable offset and a non-zero interval; `RunMain` models the ValueError of an unreadable offset; `main` always passes 30.
- `timetz()` texts with microseconds or seconds in the offset are not modelled; `TzText` covers `HH:MM:SS±hh:mm`.
- `input()`, `.strip()` and every `print` are left out. `RunMain` takes the already stripped answers as parameters.
- The regular expression's `\d` is taken as ASCII `0`-`9`; Python's `\d` also matches other Unicode digits.
- PyText.ParseInt: a sign, surrounding whitespace, underscores between digits and non-ASCII digits, all of which Python's `int()` accepts, are not modelled, because the hour field of a `timetz()` text never holds them. On a general text such as `00:00:00+-05:00` the model gives ValueError where Python gives -18 000 000.
- Binance.Windows: lemmas about the windows cover positive steps only. The only step `main` produces is 30 000.
- `time.sleep` durations are actions in a trace only. The 60 s pause is `Pause` and the probe-interval sleep is `Sleep(tenths)`.
- CheckError.ProbeLoop: each turn reads the clock once. The source reads it a second time at line 16 to start the new epoch; the model uses the same reading. It also treats a run as finite: the loop stops when the events run out.
- `get_status_code_200` is an input: each event says whether the probe returned status 200. A `requests` exception during the probe would crash `checkerror.py` and is not modelled.
