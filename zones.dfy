/** Absolute instants, time zones and chrono's truncation of a zoned
    date-time to a whole minute. */
module Zones {
  import opened Wrappers
  import opened Calendar

  /** An absolute instant: nanoseconds since 1970-01-01T00:00:00Z. */
  type Instant = int

  /** The bounds of an `i64`, which chrono's nanosecond timestamps must fit. */
  const I64Min: int := -0x8000_0000_0000_0000
  const I64Max: int := 0x7fff_ffff_ffff_ffff

  /** chrono's `LocalResult`: a local wall-clock reading names no instant
      (skipped by a forward transition), one instant, or two (repeated by a
      backward transition). */
  datatype LocalResult = NoInstant | Single(instant: Instant) | Ambiguous(earliest: Instant, latest: Instant)

  /** A time zone, seen only through what the model needs of chrono-tz: the
      instants a local wall-clock reading stands for
      (`TimeZone::from_local_datetime`). */
  datatype Zone = Zone(fromLocal: NaiveDateTime -> LocalResult)

  /** A zone at a fixed offset east of UTC, in whole seconds: the wall clock
      reads the instant plus the offset. */
  function FixedOffset(offsetSeconds: int): Zone {
    Zone((dt: NaiveDateTime) => Single(WallNanos(dt) - offsetSeconds * NanosPerSecond))
  }

  /** chrono's `Utc`. */
  function Utc(): Zone {
    FixedOffset(0)
  }

  /** `Utc.from_utc_datetime(dt)`: the naive date-time read as UTC. */
  function UtcReading(dt: NaiveDateTime): (t: Instant)
    ensures Utc().fromLocal(dt) == Single(t)
  {
    WallNanos(dt)
  }

  /** Rust's `%` on integers: the remainder takes the sign of the dividend. */
  function RustRem(a: int, b: int): (r: int)
    requires b > 0
    ensures a == (if a >= 0 then a / b else -((-a) / b)) * b + r
    ensures a >= 0 ==> 0 <= r < b
    ensures a < 0 ==> -b < r <= 0
  {
    if a >= 0 then a % b else -((-a) % b)
  }

  function Abs(x: int): int {
    if x < 0 then -x else x
  }

  /** `duration_trunc(Duration::minutes(1))` on a date-time whose wall-clock
      stamp (`naive_local().and_utc().timestamp_nanos()`) is `wall` and whose
      instant is `original`. chrono refuses a stamp that does not fit an `i64`
      or whose magnitude is below one minute, and `i64::MIN.abs()` overflows;
      the source unwraps the refusal into a panic. */
  function TruncToMinute(wall: int, original: Instant): (r: Run<Instant>)
    ensures r.Returns? <==> TruncDefined(wall)
    ensures r.Returns? ==> r.value == original - wall % NanosPerMinute
  {
    if wall < I64Min || I64Max < wall then Panics
    else if wall == I64Min then Panics
    else if NanosPerMinute > Abs(wall) then Panics
    else
      var deltaDown := RustRem(wall, 60_000_000_000);
      if deltaDown == 0 then Returns(original)
      else if deltaDown > 0 then Returns(original - deltaDown)
      else Returns(original - (60_000_000_000 - Abs(deltaDown)))
  }

  /** When chrono can truncate a date-time with wall-clock stamp `wall`. */
  predicate TruncDefined(wall: int) {
    I64Min < wall <= I64Max && NanosPerMinute <= Abs(wall)
  }

  /** Truncating an instant read on the UTC wall clock keeps its whole
      minutes: two instants truncate alike exactly when they fall in the same
      minute. */
  lemma SameMinute(a: Instant, b: Instant)
    ensures a - a % NanosPerMinute == b - b % NanosPerMinute <==> a / NanosPerMinute == b / NanosPerMinute
  {
    assert a - a % 60_000_000_000 == (a / 60_000_000_000) * 60_000_000_000;
    assert b - b % 60_000_000_000 == (b / 60_000_000_000) * 60_000_000_000;
  }

  /** In a zone whose offset is a whole number of minutes, truncating on the
      local wall clock (as chrono does) gives the same instant as truncating
      the instant itself. */
  lemma WholeMinuteOffsetTruncation(offsetSeconds: int, dt: NaiveDateTime)
    requires offsetSeconds % 60 == 0
    ensures FixedOffset(offsetSeconds).fromLocal(dt).Single?
    ensures var t := FixedOffset(offsetSeconds).fromLocal(dt).instant;
            t - WallNanos(dt) % NanosPerMinute == t - t % NanosPerMinute
  {
    var w := WallNanos(dt);
    var t := w - offsetSeconds * 1_000_000_000;
    var k := offsetSeconds / 60;
    var q, r := w / 60_000_000_000, w % 60_000_000_000;
    assert t == (q - k) * 60_000_000_000 + r;
    MinuteDivision(q - k, r);
  }

  /** The same is false for an offset with seconds in it (America/Los_Angeles
      kept local mean time, -7:52:58, until 1883): at -00:00:30, any reading
      from the thirtieth second on truncates to a different instant. */
  lemma SubMinuteOffsetTruncationDiffers(dt: NaiveDateTime)
    requires 30 <= dt.second
    ensures var t := FixedOffset(-30).fromLocal(dt).instant;
            t - WallNanos(dt) % NanosPerMinute != t - t % NanosPerMinute
  {
    WallNanosMinuteRemainder(dt);
    var w := WallNanos(dt);
    var q := w / 60_000_000_000;
    assert w == q * 60_000_000_000 + dt.second * 1_000_000_000;
    var t := w + 30 * 1_000_000_000;
    assert t == (q + 1) * 60_000_000_000 + (dt.second - 30) * 1_000_000_000;
    MinuteDivision(q + 1, (dt.second - 30) * 1_000_000_000);
  }
}
