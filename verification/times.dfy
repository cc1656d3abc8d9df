/**
 A fixed-offset abstraction of Python's `datetime` and `timedelta` as used by
 the calendar-event model.

 A date-time is a wall-clock reading in seconds together with an optional
 zone; a missing zone is a "naive" date-time. The instant a zone-aware
 date-time denotes is its wall-clock reading minus the zone's UTC offset.
 */
module Times {
  import opened Wrappers

  const SecondsPerDay: int := 86400

  /** A time zone: the distinguished floating zone, or a fixed UTC offset in seconds. */
  datatype Zone = Floating | Fixed(offset: int)

  /** A wall-clock reading with an optional zone; `zone == None` is a naive date-time. */
  datatype DateTime = DateTime(wall: int, zone: Option<Zone>)

  predicate Aware(d: DateTime) {
    d.zone.Some?
  }

  /** The floating zone is read as offset zero. */
  function UtcOffset(z: Zone): int {
    match z
    case Floating => 0
    case Fixed(o) => o
  }

  /** Seconds since the epoch denoted by an aware date-time (`timestamp`). */
  function Instant(d: DateTime): int
    requires Aware(d)
  {
    d.wall - UtcOffset(d.zone.value)
  }

  /** `timedelta.days`: whole days of a span of seconds, rounded towards minus infinity. */
  function Days(seconds: int): (r: int)
    ensures r * SecondsPerDay <= seconds < (r + 1) * SecondsPerDay
    ensures seconds >= 0 ==> r >= 0
  {
    seconds / SecondsPerDay
  }

  /** `d.date()`: the day number of the wall-clock reading in the date-time's own zone. */
  function Date(d: DateTime): int {
    Days(d.wall)
  }

  /** `d.astimezone(z)`: the same instant, shown in zone `z`. */
  function AsTimezone(d: DateTime, z: Zone): (r: DateTime)
    requires Aware(d)
    ensures Aware(r) && r.zone == Some(z)
    ensures Instant(r) == Instant(d)
  {
    DateTime(Instant(d) + UtcOffset(z), Some(z))
  }

  /** Converting to a zone and back to the original zone restores the date-time. */
  lemma AsTimezoneRoundTrip(d: DateTime, z: Zone)
    requires Aware(d)
    ensures AsTimezone(AsTimezone(d, z), d.zone.value) == d
  {
  }

  /** `datetime.combine(day, midnight)` with a floating-zone midnight. */
  function MidnightFloating(day: int): (r: DateTime)
    ensures r.zone == Some(Floating)
    ensures Date(r) == day
    ensures r.wall % SecondsPerDay == 0
  {
    DateTime(day * SecondsPerDay, Some(Floating))
  }

  /** `d + timedelta(seconds)`: aware arithmetic moves the wall clock and keeps the zone. */
  function AddSpan(d: DateTime, seconds: int): (r: DateTime)
    ensures r.zone == d.zone
    ensures Aware(d) ==> Instant(r) == Instant(d) + seconds
  {
    DateTime(d.wall + seconds, d.zone)
  }
}
