# Amsterdam parking bot: scheduling and booking core

The bot books street-parking sessions on the Amsterdam parking website.
Given a time range such as `13:00-14:00` and a day (today, tomorrow or a
date), it reads the range as a window of minutes. It cuts the window into
sessions of at most `session_duration_minutes` with breaks of
`max_break_minutes` between them. Then it books the sessions one by one
through the browser, retrying each up to `max_retries` times with an
exponential backoff. `main` turns the outcome into an exit status.

This project models that core in Dafny:

- `wrappers.dfy`: `Option` and `Result`.
- `text.dfy`: the string operations the parser relies on (`str.split`,
  `str.strip`, `str.lower`, the search for `:`), restricted to ASCII.
- `clock.dfy`: moments as minutes after midnight of the base day, the
  `%H:%M` reader and writer (`strptime`/`strftime`) and the `%I:%M%p`
  writer of `convert_to_12hour_format`, each with its inverse.
- `session.dfy`: the `ParkingSession` value and its `__str__`.
- `time_range.dfy`: `_parse_time_range`, with one error per kind of
  `ValueError`, and the day argument of `book_parking_sessions`.
- `partition.dfy`: `_calculate_sessions`, an imperative loop proved
  against a recursive definition of the schedule, together with the laws
  of that schedule.
- `booking.dfy`: the retry loop and the per-session loop of
  `book_parking_sessions`, as methods proved against fold definitions. The
  browser step `_book_single_session` is an executor passed in as a
  function from (session position, attempt number) to one of its four
  behaviours. Sleeps are recorded in a ghost trace. The file also holds the
  booking pipeline, the dry run and `main`'s exit status.

Moments are integers counting minutes from midnight of the base day. The
base day is the target date when there is one and today otherwise.
`strftime` only looks at the time of day, `t % 1440`. All times come from
`%H:%M`, so every duration is a whole number of minutes and the
`int(total_seconds / 60)` conversions are exact.

The loop stops early and drops a short remainder instead of spreading it
over the sessions (`Partition.Tail`, `Partition.HourExample`). A balance
error during booking exits 1 (`Booking.ExitCodes`).

## Model

| member | source | states |
|---|---|---|
| Text.Strip | amsterdam_parking_bot.py:171 | the result is a slice of the text with only white space before and after it, and starts and ends with a non-space; a text already without surrounding white space is unchanged |
| Text.Split | amsterdam_parking_bot.py:171 | at least one part; exactly one part when the separator does not occur; no part contains the separator |
| Text.SplitJoin | amsterdam_parking_bot.py:171 | joining the parts with the separator gives the text back |
| Text.SplitTwo | amsterdam_parking_bot.py:171 | two separator-free texts joined by the separator split into exactly those two |
| Text.IndexOf | amsterdam_parking_bot.py:174-175 | None exactly when the character is absent; otherwise the position of its first occurrence |
| Text.Lower | amsterdam_parking_bot.py:420-422 | same length, every character lower-cased one by one |
| Clock.TimeOfDay | amsterdam_parking_bot.py:41 | the time of day lies in 0..1439 and differs from the moment by whole days |
| Clock.NumberField | amsterdam_parking_bot.py:174-175 | `%H`/`%M` accept exactly one or two digits whose value is at most the maximum, and the value read is the decimal value of those digits |
| Clock.ClockFields | amsterdam_parking_bot.py:174-175 | `%H:%M` on a text cut at its only colon reads the hour and the minute fields, each of one or two digits, and fails exactly when one of them is refused |
| Clock.UnpaddedExample | amsterdam_parking_bot.py:174-175 | the unpadded `9:5` reads as 09:05 |
| Clock.ParseClock | amsterdam_parking_bot.py:174-175 | a successful `%H:%M` reading lies within one day and needs a colon and 3..5 characters |
| Clock.FormatClock | amsterdam_parking_bot.py:41 | `%H:%M` writes five characters: digits around a colon |
| Clock.ClockRoundTrip | amsterdam_parking_bot.py:41 | reading back what `%H:%M` wrote gives the moment's time of day |
| Clock.Hour12 | amsterdam_parking_bot.py:274 | the `%I` hour lies in 1..12 and agrees with the hour modulo 12 |
| Clock.Meridiem | amsterdam_parking_bot.py:274 | `%p` is two characters |
| Clock.TwelveHourText | amsterdam_parking_bot.py:272-274 | the 12-hour text is seven characters with a colon at position 2 |
| Clock.TwelveHourFields | amsterdam_parking_bot.py:272-274 | hour 0 reads 12AM, 1..11 read as themselves with AM, 12 reads 12PM, 13..23 read 1..11PM; minutes copied; AM exactly before noon |
| Clock.ParseTwelveHour | amsterdam_parking_bot.py:272-274 | a reference reader that inverts `%I:%M%p`: a reading lies within one day and is before noon exactly for the AM suffix |
| Clock.TwelveHourRoundTrip | amsterdam_parking_bot.py:272-274 | the 12-hour text loses nothing: reading it back gives the time of day |
| Sessions.ParkingSession.DurationMinutes | amsterdam_parking_bot.py:38 | the duration added to the start gives the end, and it is positive exactly when the start is before the end |
| Sessions.SessionText | amsterdam_parking_bot.py:40-41 | `__str__` is eleven characters with `-` at position 5 |
| TimeRange.ParseTimeRange | amsterdam_parking_bot.py:166-183 | a parsed window starts within the base day and lasts 1..1440 minutes; with a target date it also ends within that day |
| TimeRange.Order | amsterdam_parking_bot.py:177-181 | keeps the start and the end's time of day, lasts 1..1440 minutes; fails exactly when a target date is given and end <= start, with `EndNotAfterStart` |
| TimeRange.Fields | amsterdam_parking_bot.py:171-175 | the two sides read as clock times in 0..1439 exactly when the text has two `-`-separated parts whose stripped sides `%H:%M` accepts |
| TimeRange.ParseByFields | amsterdam_parking_bot.py:171-181 | once both sides read as clock times, the result depends on the ordering rule alone |
| TimeRange.RangeErrors | amsterdam_parking_bot.py:168-181 | each of the four errors occurs exactly for its cause: no `-`, more than two parts, a side `%H:%M` rejects, end <= start with a target date |
| TimeRange.RolloverRule | amsterdam_parking_bot.py:177-181 | an end after the start is kept; otherwise the end moves forward one day without a target date (equal times give 1440 minutes) and is refused with one |
| TimeRange.ResolveTargetDay | amsterdam_parking_bot.py:419-423 | `tomorrow` in any case means the next day; nothing, an empty text or `today` in any case mean no target date; any other text is taken as a date, unchanged |
| TimeRange.DayWordRollover | amsterdam_parking_bot.py:419-423 | a range crossing midnight rolls over for `today` and is refused for `tomorrow` |
| TimeRange.ClockSide | amsterdam_parking_bot.py:41 | a `%H:%M` text needs no stripping, holds no `-` and reads back as its time of day |
| TimeRange.JoinedFields | amsterdam_parking_bot.py:171-175 | two clean sides joined by `-` read as their two clock values |
| TimeRange.SessionTextFields | amsterdam_parking_bot.py:40-41 | the two sides of a session's text read as its start's and end's times of day |
| TimeRange.DurationFromClocks | amsterdam_parking_bot.py:38 | a duration of 1..1440 minutes is recovered from the two times of day, adding a day when the end's clock is not after the start's |
| TimeRange.SessionTextRoundTrip | amsterdam_parking_bot.py:40-41 | parsing a session's text without a target date gives a window with its start's time of day and its duration |
| TimeRange.RangeOfClocks | amsterdam_parking_bot.py:177-181 | a text whose sides are the clocks of two moments at most a day apart parses to the first moment's time of day and their distance |
| TimeRange.OrderOfClocks | amsterdam_parking_bot.py:177-181 | the ordering rule recovers two moments at most a day apart from their times of day |
| TimeRange.SameDayExample | amsterdam_parking_bot.py:166-183 | `13:00-14:00` for `today` is minutes 780..840 |
| TimeRange.OvernightExample | amsterdam_parking_bot.py:177-179 | `23:30-00:15` without a date is minutes 1410..1455, ending on the next day |
| TimeRange.OvernightTomorrowExample | amsterdam_parking_bot.py:177-181 | `23:30-00:15` for `Tomorrow` is refused |
| Partition.Stalls | amsterdam_parking_bot.py:191-203 | outside `Ends` the loop neither breaks out nor moves forward, so it never stops; this is why the precondition is exactly `Ends` |
| Partition.Schedule | amsterdam_parking_bot.py:185-205 | the schedule is non-empty exactly when start < end, and it begins with a session clipped to the end |
| Partition.CalculateSessions | amsterdam_parking_bot.py:185-205 | the `while` loop returns exactly `Schedule` |
| Partition.Placement | amsterdam_parking_bot.py:191-193 | every session starts inside the window and runs for `session_minutes` clipped to the end |
| Partition.Chaining | amsterdam_parking_bot.py:191-203 | every session but the last is full, leaves more than `session_minutes` after it, and is followed exactly `max_break_minutes` later |
| Partition.SessionsWithinWindow | amsterdam_parking_bot.py:189-196 | every session lies in the window and lasts 1..`session_minutes`; all but the last are full and end early; a session reaching the end is the last |
| Partition.Ordered | amsterdam_parking_bot.py:191-203 | each session ends before any later one starts |
| Partition.ExactBreaks | amsterdam_parking_bot.py:191-203 | consecutive sessions are exactly `max_break_minutes` apart and in order without overlap |
| Partition.Tail | amsterdam_parking_bot.py:191-203 | the uncovered tail is 0, at most `session_minutes` (early stop), or more than that but at most `max_break_minutes` (the next start passed the end) |
| Partition.Accounting | amsterdam_parking_bot.py:185-205 | booked minutes plus the breaks plus the tail make up the whole window |
| Partition.HourExample | amsterdam_parking_bot.py:185-205 | 00:00-01:00 with 10/5 gives 0-10, 15-25, 30-40, 45-55 |
| Booking.BackoffSeconds | amsterdam_parking_bot.py:466 | the backoff is at least 2 seconds and exactly 2 after the first attempt |
| Booking.BackoffDoubles | amsterdam_parking_bot.py:466 | each backoff is twice the one before |
| Booking.Pause | amsterdam_parking_bot.py:464-468 | a backoff is slept exactly after an ordinary exception that was not the last attempt |
| Booking.Attempts | amsterdam_parking_bot.py:456-468 | with attempts left, the first event is the call for the current attempt; with none, nothing is called |
| Booking.AttemptsNumbered | amsterdam_parking_bot.py:456-459 | attempts are numbered consecutively and there are at most `max_retries` of them (none when it is <= 0) |
| Booking.AttemptsConcluded | amsterdam_parking_bot.py:456-473 | all attempts but the last were retried; success exactly when the last returned True, the balance stop exactly when it raised the balance error, exhausted exactly when all attempts were used and the last was retried |
| Booking.AttemptsBackoff | amsterdam_parking_bot.py:464-468 | a backoff of `2 * 2^attempt` seconds comes exactly after a raised call that is not the last attempt, and is followed by the next attempt; every call is for this session |
| Booking.TrySession | amsterdam_parking_bot.py:455-468 | the retry loop returns the verdict and trace of `Attempts` |
| Booking.Pacing | amsterdam_parking_bot.py:476-477 | a pause of 2.5..5 seconds follows a session exactly when another one comes after it |
| Booking.Progress | amsterdam_parking_bot.py:451-477 | after k passes every processed session is in exactly one list; after a stop, all of them are |
| Booking.Step | amsterdam_parking_bot.py:451-477 | a pass stops the run exactly on the balance error; it adds one session to the lists, or on a stop that session and every later one |
| Booking.StepExtends | amsterdam_parking_bot.py:451-477 | a pass only appends: the lists and the trace before it are prefixes of those after it |
| Booking.Passed | amsterdam_parking_bot.py:456-477 | a pass without the balance error files its session under its verdict and appends its attempts and pause to the trace |
| Booking.Halts | amsterdam_parking_bot.py:461-463 | a pass with the balance error ends the run with that session and all later ones failed |
| Booking.BookSessions | amsterdam_parking_bot.py:448-478 | the outer loop returns exactly what `Progress` describes for all sessions |
| Booking.HaltPersists | amsterdam_parking_bot.py:461-463 | after the balance error the run no longer changes |
| Booking.Sorted | amsterdam_parking_bot.py:470-473 | without a balance error, `successful` and `failed` are the booked and exhausted sessions, in schedule order |
| Booking.Stopped | amsterdam_parking_bot.py:461-463 | a balance error at session h stops the run; the earlier results are kept and h and every later session are added to `failed` |
| Booking.OwnVisits | amsterdam_parking_bot.py:456-458 | the attempts at a session call the executor for that session only |
| Booking.StepInOrder | amsterdam_parking_bot.py:451-458 | a pass for the k-th session keeps the executor calls in schedule order |
| Booking.CallsInOrder | amsterdam_parking_bot.py:451-458 | the executor is called for the sessions in schedule order |
| Booking.NothingAfterHalt | amsterdam_parking_bot.py:461-463 | after a balance error at session h, no later session is tried |
| Booking.SwallowingExecutor | amsterdam_parking_bot.py:410-412 | an executor that never raises, as written, never stops the run and never causes a backoff |
| Booking.OrDefault | amsterdam_parking_bot.py:426-427 | `value or default`: nothing and 0 fall back to the configuration |
| Booking.Plan | amsterdam_parking_bot.py:430-431 | the plan fails exactly when the range is refused, and otherwise has at least one session |
| Booking.Booking | amsterdam_parking_bot.py:414-501 | a returned result counts at least one session, and its successes and failures add up to the total |
| Booking.BookParkingSessions | amsterdam_parking_bot.py:414-501 | the method returns exactly `Booking`: day, range, split, set-up, then the booking loop |
| Booking.DefaultsEnd | amsterdam_parking_bot.py:77-79 | with the default configuration and non-negative arguments both lengths are at least 1 and the split stops |
| Booking.ExitCode | amsterdam_parking_bot.py:544-549 | 1 exactly when there is no result, 2 exactly when some session failed, 0 exactly when none did |
| Booking.ExitCodes | amsterdam_parking_bot.py:544-549 | exit 1 exactly when the day, the range or the browser fails or the balance error occurs; 0 exactly when every session was booked; 2 exactly when some session used up its attempts |
| Booking.DryRun | amsterdam_parking_bot.py:526-537 | the dry run parses without a target date and returns the `Plan` for today |
| Booking.MainExit | amsterdam_parking_bot.py:519-553 | `main` exits 0, 1 or 2, and a dry run never exits 2 |
| Booking.DryRunExit | amsterdam_parking_bot.py:526-537 | a dry run exits 0 exactly when the range parses without a date, and 1 otherwise, whatever the executor and the browser do |
| Booking.TomorrowOvernight | amsterdam_parking_bot.py:526-549 | a range crossing midnight with `--tomorrow` exits 0 in a dry run, which ignores the day, and 1 in a booking run |

## Left out

- Selenium: driver set-up, login, element lookup and clicking, and the form steps of `_book_single_session` are browser I/O. Their failure before the loop is the `setupFails` parameter. The booking step is the executor parameter, and the 12-hour conversion it uses is modelled.
- `_load_config`, `ConfigurationError` and `_setup_logging` are file I/O and process-wide logging. The settings used are the `Config` parameter, and `Defaults` holds the file's default values.
- `_get_account_status`, the balance warning and the cost are read from page text as floats. `Stats` omits `cost`, and the low-balance warning only logs.
- `time.sleep` is not performed. The backoffs and the pauses between sessions are ghost trace events, the pauses counted in half seconds.
- Logging and printing are left out, including the dry run's listing of the sessions, which is the returned schedule.
- `datetime.now()` and the calendar value of the base day are left out: moments count from its midnight.
- An explicit day is read with `strptime("%Y-%m-%d")` and the `isDate` parameter decides whether that succeeds. The calendar check itself is not modelled.
- White space, digits and letter case are ASCII only. Python's `str.strip`, `strptime` and `str.lower` also accept Unicode forms.
- `total_minutes` in `_calculate_sessions` is never used, and neither is `monthly_time_budget`.
- The comparison of a date with the text `'tomorrow'` inside `_book_single_session` never holds, and it selects a form field.
- `main`'s own `except` also covers `ConfigurationError` from the constructor. Only the booking and dry-run paths are modelled.
- Partition.Schedule: the precondition `Ends` excludes exactly the inputs on which the Python loop never stops (`Partition.Stalls`). The properties of the schedule are stated for `session_minutes >= 1` and `max_break_minutes >= 1`, the values the defaults and `or` produce for non-negative arguments (`Booking.DefaultsEnd`).
- TimeRange.SessionTextRoundTrip: only sessions of 1..1440 minutes come back, because `__str__` keeps only the two times of day.
- Booking.Booking: the executor is a function of the session's position and the attempt number. Any deterministic executor fits this form, but an executor that depends on other state does not.
