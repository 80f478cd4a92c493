# fix_photos_timestamp — a Dafny model of the timestamp reconciliation

The program walks a Google Photos album whose items should all have been
taken inside one allowed time range, and for each item decides whether its
recorded creation time is right (`Ok`), what it should be changed to
(`Suggest`), or that it cannot tell (`Unknown`). This project models that decision in Dafny:

- **the allowed range**: `DateTimeRange`, half-open `[begin, end)` of zoned date-times. Containment compares instants.
- **parsing a filename**: `parse_date_from_filename`. The leftmost match
  of `([0-9]{4})([0-9]{2})([0-9]{2})[-_]([0-9]{2})([0-9]{2})([0-9]{2})` gives
  year, month, day, hour, minute and second. These become a `NaiveDateTime`;
  an impossible date or time panics.
- **the classification**: `process_media`. A recorded time inside the range is
  accepted when the filename has no stamp, or when the filename's date-time
  agrees with the recorded time. Agreement is checked to the minute, with the
  date-time read either as UTC or in the range's zone. Otherwise the filename's
  UTC reading is suggested if it is in the range. Failing that, its reading in
  the range's zone is suggested if that is in the range. Otherwise the result is `Unknown`.

Modelling choices:

- **Instants** are integer nanoseconds since the Unix epoch (`Zones.Instant`).
- **A panic** is an outcome, not a precondition: `Wrappers.Run` is
  `Returns(value)` or `Panics`. It stands for every `unwrap` the source
  executes: on `from_ymd_opt`, `from_hms_milli_opt`, `duration_trunc` and
  `from_local_datetime`.
- **A time zone** (`Zones.Zone`) is abstract: a function from a wall-clock reading
  to chrono's `LocalResult` (no instant, one, or two). `FixedOffset` is one
  concrete zone. The scenarios use UTC-07:00, which is America/Los_Angeles in July.
- **`duration_trunc(Duration::minutes(1))`** is modelled as chrono performs it. The
  remainder is taken of the *wall-clock* stamp, with Rust's truncating `%`,
  and subtracted from the instant. It fails when the stamp does not fit an
  `i64`, when it is `i64::MIN`, and when its magnitude is below one minute.
- **The calendar** is the proleptic Gregorian one. Its day count is proved
  monotone and its nanosecond stamp one-to-one.

Files:

- `wrappers.dfy`: `Option` and `Run`.
- `calendar.dfy`: dates, times and the wall-clock stamp.
- `zones.dfy`: instants, zones and truncation to the minute.
- `range.dfy`: `DateTimeRange`.
- `filename.dfy`: the stamp pattern and the parser.
- `filename_cases.dfy`: the unit test's filenames.
- `reconcile.dfy`: `ProcessResult` and `process_media`.
- `reconcile_cases.dfy`: scenarios with the ranges configured in `main`.

## Model

| member | source | states |
|---|---|---|
| TimeRange.DateTimeRange.Timezone | src/main.rs:43-45 | the zone of a range is the zone of its `begin` |
| TimeRange.DateTimeRange.Contains | src/main.rs:39-41 | `begin`'s instant <= `d`'s instant < `end`'s instant, compared by instant whatever the zones; only a range whose `begin` precedes its `end` contains anything |
| TimeRange.ContainsHalfOpen | src/main.rs:39-41 | `contains` holds exactly for instants in `[begin, end)`: `begin` is inside exactly when the range is non-empty, `end` and the instant just before `begin` are never inside |
| TimeRange.ContainsIgnoresZone | src/main.rs:39-41 | whether a date-time is in the range does not depend on the zone it is expressed in |
| Calendar.EpochIsDayZero | src/main.rs:165 | the day count behind `from_utc_datetime` puts 1970-01-01 at day 0 |
| Calendar.IsValidDate | src/main.rs:211-216 | what `NaiveDate::from_ymd_opt` accepts: a year in chrono's range -262144..262143, a month 1-12 and a day from 1 to the length of that month, February having 29 days in Gregorian leap years |
| Calendar.IsValidTime | src/main.rs:217-223 | what `NaiveTime::from_hms_milli_opt(h, m, s, 0)` accepts: hour below 24, minute and second below 60 (no leap second, as the milliseconds are 0) |
| Calendar.NextDayInMonth | src/main.rs:165 | consecutive days of a month are consecutive day numbers |
| Calendar.NextDayAcrossMonth | src/main.rs:165 | the first of a month follows the last day of the previous month |
| Calendar.YearLength | src/main.rs:165 | each year has 365 days, 366 in Gregorian leap years |
| Calendar.NextDayAcrossYear | src/main.rs:165 | January 1st follows December 31st |
| Calendar.DateWithinYear | src/main.rs:165 | every valid date of a year falls between that year's first day and the next year's |
| Calendar.DaysFromCivilIncreasing | src/main.rs:165 | the day count is strictly increasing in calendar order on valid dates |
| Calendar.WallNanosMinuteRemainder | src/main.rs:165-166 | what truncation to the minute drops from a wall-clock stamp is exactly its seconds field |
| Calendar.WallNanosInjective | src/main.rs:165 | distinct date-times read as UTC are distinct instants |
| Zones.UtcReading | src/main.rs:165 | `Utc.from_utc_datetime` gives the single instant that the UTC zone assigns to the reading |
| Zones.TruncToMinute | src/main.rs:163 | truncation succeeds exactly when the wall-clock stamp fits an `i64`, is not `i64::MIN` and is at least one minute from the epoch, and then subtracts the stamp's non-negative remainder modulo one minute from the instant |
| Zones.SameMinute | src/main.rs:171 | two UTC instants truncate to the same value exactly when they fall in the same minute |
| Zones.WholeMinuteOffsetTruncation | src/main.rs:168-169 | in a zone with a whole-minute offset, truncating the local reading on its wall clock equals truncating its instant |
| Zones.SubMinuteOffsetTruncationDiffers | src/main.rs:168-169 | at an offset of -00:00:30 the two truncations differ from the thirtieth second on |
| FilenameStamp.FindWindow | src/main.rs:199 | the index found is the leftmost at or after the start where the pattern matches; none found means no index there matches |
| FilenameStamp.MatchesAt | src/main.rs:199 | the fifteen characters from index i are eight digits, a `-` or `_`, and six digits, all inside the filename |
| FilenameStamp.Captures | src/main.rs:204-207 | the year group is below 10000 and the other five groups below 100 |
| FilenameStamp.ParseDateFromFilename | src/main.rs:204-226 | a parsed year is between 0 and 9999 (the result type demands a valid date and time) |
| FilenameStamp.ParseNoneIffNoWindow | src/main.rs:205-207 | `None` exactly when no position of the filename matches the pattern |
| FilenameStamp.ParseReadsLeftmostWindow | src/main.rs:204-225 | with a leftmost match at i, the result is the date-time of the six groups at i when that is valid, and a panic otherwise |
| FilenameStamp.ParsePanicsIffLeftmostInvalid | src/main.rs:211-223 | a panic exactly when there is a leftmost match and its groups are not a valid date and time |
| FilenameStamp.ParsedDateIsValid | src/main.rs:211-225 | a parsed date-time has month 1-12, a day within its month (leap years included), hour below 24, minute and second below 60 |
| FilenameStamp.FormatStampMatches | src/main.rs:199 | the fifteen-character stamp of a four-digit-year date-time, with either separator, matches the pattern and its groups read back as that date-time |
| FilenameStamp.ParseFindsEmbeddedStamp | src/main.rs:199-225 | a stamp written after a digit-free prefix and before any suffix is parsed back to its date-time |
| FilenameCases.ParsesScreenshotWithTrailingText | src/main.rs:379-382 | `Screenshot_20230715_095113_CluedUpp Geogames.jpg` parses to 2023-07-15 09:51:13 |
| FilenameCases.ParsesPixelIgnoringMilliseconds | src/main.rs:395-398 | `PXL_20230715_170131447.jpg` parses to 2023-07-15 17:01:31, dropping the milliseconds |
| FilenameCases.ParsesScreenshotWithDash | src/main.rs:399-402 | `Screenshot_20230715-172906.png` parses to 2023-07-15 17:29:06 |
| FilenameCases.ParsesScreenshotWithDashEvening | src/main.rs:403-406 | `Screenshot_20230715-210645.png` parses to 2023-07-15 21:06:45 |
| FilenameCases.EarlierDigitsWin | src/main.rs:205 | digits in front of a stamp can form an earlier match that wins: `19991231-20230715_095113.jpg` parses to 1999-12-31 20:23:07 |
| Reconcile.AgreesToTheMinute | src/main.rs:161-171 | the minute comparison runs without a panic exactly when all three truncations succeed and the local reading is a single instant, and then it is true exactly when the recorded minute is the UTC reading's minute or the local reading's |
| Reconcile.CorrectionSearch | src/main.rs:178-194 | the correction search returns only `Suggest` or `Unknown`, and a suggestion lies in the range |
| Reconcile.ProcessMedia | src/main.rs:147-195 | `Error` is never returned, and a suggested instant lies in the range |
| Reconcile.ProcessMediaOkIff | src/main.rs:155-173 | `Ok` exactly when the recorded time is in range and the filename has no stamp or agrees with it to the minute |
| Reconcile.ProcessMediaSuggestion | src/main.rs:178-191 | a suggestion lies in the range, and only for a filename with a stamp that does not confirm the recorded time; it is the UTC reading, or the local reading when the UTC reading is out of range |
| Reconcile.ProcessMediaPrefersUtc | src/main.rs:180-184 | when the UTC reading is in range and the recorded time is not accepted, the UTC reading is suggested whatever the local reading |
| Reconcile.ProcessMediaUnknownIff | src/main.rs:155-194 | `Unknown` exactly when there is no stamp and the recorded time is out of range, or a stamp that does not confirm it and neither of whose readings is in range |
| Reconcile.ProcessMediaPanicsIff | src/main.rs:147-194 | the exact inputs that panic: an invalid leftmost stamp, a minute comparison that cannot run, or a local reading that is not a single instant when the search needs it |
| Reconcile.SameMinuteIsOk | src/main.rs:161-173 | a recorded time in range and in the same minute as the filename's UTC reading is `Ok` |
| ReconcileCases.PacificRange | src/main.rs:314-320 | a range built from two Pacific Daylight readings has that zone and bounds seven hours after their UTC readings |
| ReconcileCases.JulyThirtiethRange | src/main.rs:318-319 | the range `main` runs with, 2023-07-30 17:00 to 19:00 Pacific Daylight Time, is 2023-07-31 00:00 to 02:00 UTC in that zone |
| ReconcileCases.JulyFifteenthRange | src/main.rs:315-316 | the range left as a comment, 2023-07-15 08:30 to 12:00 Pacific Daylight Time, is 15:30 to 19:00 UTC, as the comments there say |
| ReconcileCases.PixelOutsideRangeIsUnknown | src/main.rs:318-319 | a July 15th photo checked against the July 30th range gives `Unknown` |
| ReconcileCases.UtcNamedScreenshotIsCorrectedToUtc | src/main.rs:315-316 | a screenshot named in UTC, recorded outside the July 15th range, is corrected to its UTC reading |
| ReconcileCases.LocalNamedScreenshotIsCorrectedToLocal | src/main.rs:315-316 | a screenshot named in local time is corrected to its Pacific reading when its UTC reading is out of range |
| ReconcileCases.RecordedInSameMinuteIsOk | src/main.rs:161-173 | a recorded time 39 seconds after the named time, in range, is `Ok` |
| ReconcileCases.ContradictedInRangeIsUnknown | src/main.rs:155-194 | a recorded time in range that the filename contradicts, with both readings out of range, gives `Unknown` rather than `Ok` |

## Left out

- `list_albums`, `list_media`, `_update_media` and `main`: Google Photos HTTP calls, OAuth, command-line arguments and printing. They are I/O around the decision, and only the range `main` configures appears, in `ReconcileCases`.
- `Display for DateTimeRange`: chrono's text formatting; it only prints.
- The tz database: America/Los_Angeles is not modelled. A zone is any function from readings to `LocalResult`. The scenarios use the fixed UTC-07:00 offset in force in July. `ProcessMediaPanicsIff` covers gaps and overlaps in general.
- chrono's limits on the range of a `DateTime<Utc>`: recorded instants are unbounded integers. Only the year range of `NaiveDateTime` and the `i64` nanosecond range that `duration_trunc` checks are modelled.
- The regular-expression engine: only the one fixed pattern is modelled, as a direct test of fifteen characters. Like the `captures` call at src/main.rs:205, it returns the leftmost match.
- `ProcessMedia`: the second `parse_date_from_filename` call is modelled as a second call of the same pure function, which yields the same value.
- `ProcessMedia`: an impossible captured date or time panics in the source, and the model follows the code, not a `None` or an error result.
- `ProcessMedia`: the `Error` variant of `ProcessResult` is declared but never built, and the model proves it is never returned.
- `ParseFindsEmbeddedStamp`: requires a digit-free prefix. A stamp preceded by digits is not recovered in general; `EarlierDigitsWin` shows why.
- Milliseconds: the source builds every time with 0 milliseconds and drops any digits after the seconds, so the model has whole seconds only.
- A range whose `begin` is not before its `end`: the source never checks this. `ContainsHalfOpen` shows such a range contains nothing.
