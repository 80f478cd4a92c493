/** The batch's window of acceptable capture times. */
module TimeRange {
  import opened Zones

  /** chrono's `DateTime<Tz>`: an absolute instant together with its zone. */
  datatype ZonedInstant = ZonedInstant(instant: Instant, zone: Zone)

  /** The half-open range [begin, end) of zoned instants. */
  datatype DateTimeRange = DateTimeRange(begin: ZonedInstant, end: ZonedInstant) {

    /** chrono compares date-times by their instants, whatever their zones.
        Only a range whose begin precedes its end contains anything. */
    predicate Contains(d: ZonedInstant)
      ensures Contains(d) ==> begin.instant < end.instant
    {
      begin.instant <= d.instant && d.instant < end.instant
    }

    /** The zone of `begin`. */
    function Timezone(): (z: Zone)
      ensures z == begin.zone
    {
      begin.zone
    }
  }

  /** Containment is the half-open interval of instants. */
  lemma ContainsHalfOpen(range: DateTimeRange, d: ZonedInstant)
    ensures range.Contains(d) <==> range.begin.instant <= d.instant < range.end.instant
    ensures range.Contains(range.begin) <==> range.begin.instant < range.end.instant
    ensures !range.Contains(range.end)
    ensures !range.Contains(ZonedInstant(range.begin.instant - 1, d.zone))
  {
  }

  /** The zone a date-time is expressed in does not change whether it is in
      the range. */
  lemma ContainsIgnoresZone(range: DateTimeRange, t: Instant, z1: Zone, z2: Zone)
    ensures range.Contains(ZonedInstant(t, z1)) == range.Contains(ZonedInstant(t, z2))
  {
  }
}
