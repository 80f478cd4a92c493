/** `process_media`: classify one media item from its recorded creation
    time, its filename and the batch's allowed range. */
module Reconcile {
  import opened Wrappers
  import opened Calendar
  import opened Zones
  import opened TimeRange
  import opened FilenameStamp

  /** `ProcessResult`. `Error` is declared by the source but never built. */
  datatype ProcessResult = Ok | Suggest(instant: Instant) | Unknown | Error(message: string)

  /** The recorded instant agrees with the filename's date-time d at minute
      resolution, d read either as UTC or as the range's zone: the minute of
      the recorded instant is the minute of the UTC reading, or it is the
      local reading with the filename's seconds dropped. */
  predicate MinuteMatch(creationTime: Instant, d: NaiveDateTime, zone: Zone) {
    || creationTime / NanosPerMinute == UtcReading(d) / NanosPerMinute
    || (zone.fromLocal(d).Single?
        && creationTime - creationTime % NanosPerMinute == zone.fromLocal(d).instant - d.second * NanosPerSecond)
  }

  /** The fast-accept comparison can run without a panic: all three
      truncations succeed and d names exactly one local instant. */
  predicate FastAcceptDefined(creationTime: Instant, d: NaiveDateTime, zone: Zone) {
    TruncDefined(creationTime) && TruncDefined(WallNanos(d)) && zone.fromLocal(d).Single?
  }

  /** Truncate the recorded instant, the UTC reading and the local reading of
      d to the minute and compare. */
  function AgreesToTheMinute(creationTime: Instant, d: NaiveDateTime, zone: Zone): (r: Run<bool>)
    ensures r.Returns? <==> FastAcceptDefined(creationTime, d, zone)
    ensures r.Returns? ==> (r.value <==> MinuteMatch(creationTime, d, zone))
  {
    WallNanosMinuteRemainder(d);
    SameMinute(creationTime, UtcReading(d));
    match TruncToMinute(creationTime, creationTime)
    case Panics => Panics
    case Returns(creation) =>
      match TruncToMinute(WallNanos(d), UtcReading(d))
      case Panics => Panics
      case Returns(truncUtc) =>
        match zone.fromLocal(d)
        case Single(dLocal) =>
          (match TruncToMinute(WallNanos(d), dLocal)
           case Panics => Panics
           case Returns(truncLocal) => Returns(creation == truncUtc || creation == truncLocal))
        case _ => Panics
  }

  /** The correction search: parse the filename again, then try the UTC
      reading, then the range's local reading. */
  function CorrectionSearch(filename: string, allowedRange: DateTimeRange): (r: Run<ProcessResult>)
    ensures r.Returns? ==> r.value.Suggest? || r.value.Unknown?
    ensures r.Returns? && r.value.Suggest? ==> allowedRange.Contains(ZonedInstant(r.value.instant, Utc()))
  {
    match ParseDateFromFilename(filename)
    case Panics => Panics
    case Returns(None) => Returns(Unknown)
    case Returns(Some(d)) =>
      var dUtc := UtcReading(d);
      if allowedRange.Contains(ZonedInstant(dUtc, Utc())) then Returns(Suggest(dUtc))
      else
        match allowedRange.Timezone().fromLocal(d)
        case Single(dLocal) =>
          if allowedRange.Contains(ZonedInstant(dLocal, allowedRange.Timezone())) then Returns(Suggest(dLocal))
          else Returns(Unknown)
        case _ => Panics
  }

  /** `process_media`: `Ok` when the recorded time is in range and the
      filename does not contradict it, otherwise a suggestion taken from the
      filename when one of its readings is in range, otherwise `Unknown`. */
  function ProcessMedia(filename: string, creationTime: Instant, allowedRange: DateTimeRange): (r: Run<ProcessResult>)
    ensures r.Returns? ==> !r.value.Error?
    ensures r.Returns? && r.value.Suggest? ==> allowedRange.Contains(ZonedInstant(r.value.instant, Utc()))
  {
    match ParseDateFromFilename(filename)
    case Panics => Panics
    case Returns(d) =>
      if allowedRange.Contains(ZonedInstant(creationTime, allowedRange.begin.zone)) then
        match d
        case None => Returns(Ok)
        case Some(dt) =>
          match AgreesToTheMinute(creationTime, dt, allowedRange.Timezone())
          case Panics => Panics
          case Returns(true) => Returns(Ok)
          case Returns(false) => CorrectionSearch(filename, allowedRange)
      else CorrectionSearch(filename, allowedRange)
  }

  /** The recorded instant is inside the range. */
  predicate RecordedInRange(creationTime: Instant, allowedRange: DateTimeRange) {
    allowedRange.Contains(ZonedInstant(creationTime, Utc()))
  }

  /** The fast-accept branch accepts: the recorded time is in range and the
      filename either has no stamp or agrees with it to the minute. */
  predicate Accepted(filename: string, creationTime: Instant, allowedRange: DateTimeRange)
    requires ParseDateFromFilename(filename).Returns?
  {
    && RecordedInRange(creationTime, allowedRange)
    && match ParseDateFromFilename(filename).value
       case None => true
       case Some(d) => MinuteMatch(creationTime, d, allowedRange.Timezone())
  }

  /** `Ok` exactly when the fast-accept branch accepts. */
  lemma ProcessMediaOkIff(filename: string, creationTime: Instant, allowedRange: DateTimeRange)
    requires ProcessMedia(filename, creationTime, allowedRange).Returns?
    ensures ParseDateFromFilename(filename).Returns?
    ensures ProcessMedia(filename, creationTime, allowedRange).value.Ok?
            <==> Accepted(filename, creationTime, allowedRange)
  {
  }

  /** A suggestion is always inside the range, comes from the filename, and
      is the local reading only when the UTC reading is outside the range. */
  lemma ProcessMediaSuggestion(filename: string, creationTime: Instant, allowedRange: DateTimeRange)
    requires ProcessMedia(filename, creationTime, allowedRange).Returns?
    requires ProcessMedia(filename, creationTime, allowedRange).value.Suggest?
    ensures ParseDateFromFilename(filename).Returns? && ParseDateFromFilename(filename).value.Some?
    ensures !Accepted(filename, creationTime, allowedRange)
    ensures var t := ProcessMedia(filename, creationTime, allowedRange).value.instant;
            var d := ParseDateFromFilename(filename).value.value;
            && allowedRange.Contains(ZonedInstant(t, Utc()))
            && (|| t == UtcReading(d)
                || (!allowedRange.Contains(ZonedInstant(UtcReading(d), Utc()))
                    && allowedRange.Timezone().fromLocal(d) == Single(t)))
  {
  }

  /** When the filename's UTC reading is inside the range and the fast-accept
      branch does not accept (and does not panic), the UTC reading is
      suggested, whatever the local reading is. */
  lemma {:induction false} ProcessMediaPrefersUtc(filename: string, creationTime: Instant, allowedRange: DateTimeRange, d: NaiveDateTime)
    requires ParseDateFromFilename(filename) == Returns(Some(d))
    requires allowedRange.Contains(ZonedInstant(UtcReading(d), Utc()))
    requires RecordedInRange(creationTime, allowedRange) ==>
             FastAcceptDefined(creationTime, d, allowedRange.Timezone())
             && !MinuteMatch(creationTime, d, allowedRange.Timezone())
    ensures ProcessMedia(filename, creationTime, allowedRange) == Returns(Suggest(UtcReading(d)))
  {
  }

  /** `Unknown` exactly when there is no stamp and the recorded time is out of
      range, or there is a stamp that does not confirm the recorded time and
      neither of its readings is in range (even if the recorded time is). */
  lemma ProcessMediaUnknownIff(filename: string, creationTime: Instant, allowedRange: DateTimeRange)
    requires ProcessMedia(filename, creationTime, allowedRange).Returns?
    ensures ParseDateFromFilename(filename).Returns?
    ensures ProcessMedia(filename, creationTime, allowedRange).value.Unknown? <==>
            match ParseDateFromFilename(filename).value
            case None => !RecordedInRange(creationTime, allowedRange)
            case Some(d) =>
              && !Accepted(filename, creationTime, allowedRange)
              && !allowedRange.Contains(ZonedInstant(UtcReading(d), Utc()))
              && (allowedRange.Timezone().fromLocal(d).Single? ==>
                  !allowedRange.Contains(ZonedInstant(allowedRange.Timezone().fromLocal(d).instant, Utc())))
  {
  }

  /** Exactly the inputs on which the source panics: an invalid leftmost
      stamp; a recorded time in range whose minute comparison cannot run; or
      a stamp whose UTC reading is out of range and whose local reading does
      not exist or is ambiguous, once the fast-accept branch did not accept. */
  lemma ProcessMediaPanicsIff(filename: string, creationTime: Instant, allowedRange: DateTimeRange)
    ensures ProcessMedia(filename, creationTime, allowedRange).Panics? <==>
            || ParseDateFromFilename(filename).Panics?
            || (ParseDateFromFilename(filename).value.Some?
                && var d := ParseDateFromFilename(filename).value.value;
                   var zone := allowedRange.Timezone();
                   || (RecordedInRange(creationTime, allowedRange) && !FastAcceptDefined(creationTime, d, zone))
                   || (!(RecordedInRange(creationTime, allowedRange) && MinuteMatch(creationTime, d, zone))
                       && !allowedRange.Contains(ZonedInstant(UtcReading(d), Utc()))
                       && !zone.fromLocal(d).Single?))
  {
  }

  /** Differences within one minute never cause a mismatch: a recorded time
      in range in the same minute as the filename's UTC reading is `Ok`. */
  lemma SameMinuteIsOk(filename: string, creationTime: Instant, allowedRange: DateTimeRange, d: NaiveDateTime)
    requires ParseDateFromFilename(filename) == Returns(Some(d))
    requires RecordedInRange(creationTime, allowedRange)
    requires FastAcceptDefined(creationTime, d, allowedRange.Timezone())
    requires creationTime / NanosPerMinute == UtcReading(d) / NanosPerMinute
    ensures ProcessMedia(filename, creationTime, allowedRange) == Returns(Ok)
  {
  }
}
