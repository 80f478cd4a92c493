/** `process_media` on the unit test's filenames, with the ranges the source
    configures for America/Los_Angeles in July (Pacific Daylight Time, seven
    hours behind UTC). As in `FilenameCases`, each filename is a parameter
    pinned by a `requires`, so that its parse comes from the unit-test lemmas
    instead of from unfolding `ParseDateFromFilename` on a literal string. */
module ReconcileCases {
  import opened Wrappers
  import opened Calendar
  import opened Zones
  import opened TimeRange
  import opened FilenameStamp
  import opened FilenameCases
  import opened Reconcile

  /** America/Los_Angeles in summer: UTC-07:00. */
  function PacificDaylight(): Zone {
    FixedOffset(-7 * 3600)
  }

  /** `tz.with_ymd_and_hms(..)` for both bounds, in Pacific Daylight Time. */
  function PacificRange(begin: NaiveDateTime, end: NaiveDateTime): (r: DateTimeRange)
    ensures r.Timezone() == PacificDaylight()
    ensures r.begin.instant == UtcReading(begin) + 7 * 3600 * NanosPerSecond
    ensures r.end.instant == UtcReading(end) + 7 * 3600 * NanosPerSecond
  {
    DateTimeRange(
      ZonedInstant(PacificDaylight().fromLocal(begin).instant, PacificDaylight()),
      ZonedInstant(PacificDaylight().fromLocal(end).instant, PacificDaylight()))
  }

  /** The range the program runs with: 2023-07-30 17:00 to 19:00 local, that
      is 2023-07-31 00:00 to 02:00 UTC. */
  function JulyThirtiethRange(): (r: DateTimeRange)
    ensures r.Timezone() == PacificDaylight()
    ensures r.begin.instant == UtcReading(CalendarFields(2023, 7, 31, 0, 0, 0))
    ensures r.end.instant == UtcReading(CalendarFields(2023, 7, 31, 2, 0, 0))
  {
    PacificRange(CalendarFields(2023, 7, 30, 17, 0, 0), CalendarFields(2023, 7, 30, 19, 0, 0))
  }

  /** The range left in the source as a comment: 2023-07-15 08:30 to 12:00
      local, that is 15:30 to 19:00 UTC. */
  function JulyFifteenthRange(): (r: DateTimeRange)
    ensures r.Timezone() == PacificDaylight()
    ensures r.begin.instant == UtcReading(CalendarFields(2023, 7, 15, 15, 30, 0))
    ensures r.end.instant == UtcReading(CalendarFields(2023, 7, 15, 19, 0, 0))
  {
    PacificRange(CalendarFields(2023, 7, 15, 8, 30, 0), CalendarFields(2023, 7, 15, 12, 0, 0))
  }

  /** A photo of July 15th against the July 30th range, recorded at the time
      its name says: neither reading is in range, so `Unknown`. */
  lemma PixelOutsideRangeIsUnknown(filename: string)
    requires filename == "PXL_" + "20230715_170131" + "447.jpg"
    ensures ProcessMedia(filename, UtcReading(CalendarFields(2023, 7, 15, 17, 1, 31)), JulyThirtiethRange())
            == Returns(Unknown)
  {
    ParsesPixelIgnoringMilliseconds(filename);
  }

  /** A screenshot named in UTC with a recorded time outside the range: the
      UTC reading 17:29:06Z is in range and is suggested. */
  lemma UtcNamedScreenshotIsCorrectedToUtc(filename: string)
    requires filename == "Screenshot_" + "20230715-172906" + ".png"
    ensures ProcessMedia(filename, UtcReading(CalendarFields(2023, 7, 16, 0, 0, 0)), JulyFifteenthRange())
            == Returns(Suggest(UtcReading(CalendarFields(2023, 7, 15, 17, 29, 6))))
  {
    ParsesScreenshotWithDash(filename);
  }

  /** A screenshot named in local time: its UTC reading 09:51:13Z is before
      the range, its local reading 16:51:13Z is inside and is suggested. */
  lemma LocalNamedScreenshotIsCorrectedToLocal(filename: string)
    requires filename == "Screenshot_" + "20230715_095113" + "_CluedUpp Geogames.jpg"
    ensures ProcessMedia(filename, UtcReading(CalendarFields(2023, 7, 16, 0, 0, 0)), JulyFifteenthRange())
            == Returns(Suggest(UtcReading(CalendarFields(2023, 7, 15, 16, 51, 13))))
  {
    ParsesScreenshotWithTrailingText(filename);
  }

  /** A recorded time 39 seconds (and a little) after the time in the name,
      within the same minute and in range, is accepted. */
  lemma RecordedInSameMinuteIsOk(filename: string)
    requires filename == "Screenshot_" + "20230715-172906" + ".png"
    ensures ProcessMedia(filename, UtcReading(CalendarFields(2023, 7, 15, 17, 29, 45)) + 123, JulyFifteenthRange())
            == Returns(Ok)
  {
    ParsesScreenshotWithDash(filename);
    var d: NaiveDateTime := CalendarFields(2023, 7, 15, 17, 29, 6);
    var recorded := UtcReading(CalendarFields(2023, 7, 15, 17, 29, 45)) + 123;
    WallNanosMinuteRemainder(d);
    assert recorded == UtcReading(d) + 39 * NanosPerSecond + 123;
    SameMinuteIsOk(filename, recorded, JulyFifteenthRange(), d);
  }

  /** A recorded time inside the range that the name contradicts, with both
      readings of the name outside the range, gives `Unknown`, not `Ok`. */
  lemma ContradictedInRangeIsUnknown(filename: string)
    requires filename == "PXL_" + "20230715_170131" + "447.jpg"
    ensures ProcessMedia(filename, UtcReading(CalendarFields(2023, 7, 31, 1, 0, 0)), JulyThirtiethRange())
            == Returns(Unknown)
  {
    ParsesPixelIgnoringMilliseconds(filename);
  }
}
