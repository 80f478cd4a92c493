/** The unit test of `parse_date_from_filename`: its filenames, with the
    date-times it expects. Each filename is written as the text before the
    stamp, the stamp, and the text after it, and is a parameter pinned by a
    `requires` rather than a literal in the `ensures`: each proof goes through
    `ParseFindsEmbeddedStamp` instead of unfolding `ParseDateFromFilename` on
    a literal string. */
module FilenameCases {
  import opened Wrappers
  import opened Calendar
  import opened FilenameStamp

  lemma ParsesScreenshotWithTrailingText(filename: string)
    requires filename == "Screenshot_" + "20230715_095113" + "_CluedUpp Geogames.jpg"
    ensures ParseDateFromFilename(filename) == Returns(Some(CalendarFields(2023, 7, 15, 9, 51, 13)))
  {
    var dt: NaiveDateTime := CalendarFields(2023, 7, 15, 9, 51, 13);
    assert FormatStamp(dt, '_') == "20230715_095113";
    ParseFindsEmbeddedStamp("Screenshot_", dt, '_', "_CluedUpp Geogames.jpg");
  }

  /** The trailing milliseconds (447) are not part of the match. */
  lemma ParsesPixelIgnoringMilliseconds(filename: string)
    requires filename == "PXL_" + "20230715_170131" + "447.jpg"
    ensures ParseDateFromFilename(filename) == Returns(Some(CalendarFields(2023, 7, 15, 17, 1, 31)))
  {
    var dt: NaiveDateTime := CalendarFields(2023, 7, 15, 17, 1, 31);
    assert FormatStamp(dt, '_') == "20230715_170131";
    ParseFindsEmbeddedStamp("PXL_", dt, '_', "447.jpg");
  }

  lemma ParsesScreenshotWithDash(filename: string)
    requires filename == "Screenshot_" + "20230715-172906" + ".png"
    ensures ParseDateFromFilename(filename) == Returns(Some(CalendarFields(2023, 7, 15, 17, 29, 6)))
  {
    var dt: NaiveDateTime := CalendarFields(2023, 7, 15, 17, 29, 6);
    assert FormatStamp(dt, '-') == "20230715-172906";
    ParseFindsEmbeddedStamp("Screenshot_", dt, '-', ".png");
  }

  lemma ParsesScreenshotWithDashEvening(filename: string)
    requires filename == "Screenshot_" + "20230715-210645" + ".png"
    ensures ParseDateFromFilename(filename) == Returns(Some(CalendarFields(2023, 7, 15, 21, 6, 45)))
  {
    var dt: NaiveDateTime := CalendarFields(2023, 7, 15, 21, 6, 45);
    assert FormatStamp(dt, '-') == "20230715-210645";
    ParseFindsEmbeddedStamp("Screenshot_", dt, '-', ".png");
  }

  /** Digits before a stamp can form an earlier match that wins: a stamp is
      recovered from "anywhere" in a filename only when no match starts
      before it. */
  lemma EarlierDigitsWin(filename: string)
    requires filename == "19991231-" + "20230715_095113" + ".jpg"
    ensures ParseDateFromFilename(filename) == Returns(Some(CalendarFields(1999, 12, 31, 20, 23, 7)))
  {
    assert MatchesAt(filename, 0);
    assert Captures(filename, 0) == CalendarFields(1999, 12, 31, 20, 23, 7);
    ParseReadsLeftmostWindow(filename, 0);
  }
}
