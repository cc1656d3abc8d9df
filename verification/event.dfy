/**
 The calendar-event add-on: seven writable inputs and the fields derived
 from them (start, duration, end, the all-day and any-time flags, the
 transparency), together with the maintained constraint that rejects a
 naive start or a bad duration.

 The reactive cells of the original become pure functions of an immutable
 input record. Each derived function requires enough of the inputs to have
 a defined value. For a timed event, `Duration` and `ImpliedTransparency`
 ask for a span where Python would pass any other value through.
 */
module Events {
  import opened Wrappers
  import opened Times

  const OneHour: int := 3600
  const Fyi: string := "fyi"
  const Confirmed: string := "confirmed"

  /** `base_duration`: a `timedelta` in seconds, or some other value stored in the cell. */
  datatype BaseDuration = Span(seconds: int) | NotASpan(repr: string)

  /** The writable inputs of an event. */
  datatype Event = Event(
    baseStart: Option<DateTime>,
    baseDuration: BaseDuration,
    allDay: bool,
    baseAnyTime: bool,
    tzinfo: Zone,
    location: Option<string>,
    baseTransparency: string
  )

  /** The two constraint violations, each carrying the rejected value. */
  datatype ConstraintError =
    | NaiveTimezoneError(start: DateTime)
    | BadDurationError(duration: BaseDuration)

  /** A domain item; `event` is the event add-on installed on it, if any. */
  datatype Item = Item(title: string, event: Option<Event>)

  /** `Event.installed_on(item)`. */
  predicate InstalledOn(item: Item) {
    item.event.Some?
  }

  /** An event with every input at its declared default. */
  function DefaultEvent(): (e: Event)
    ensures Valid(e)
    ensures e.baseStart.None? && !e.allDay && !e.baseAnyTime
    ensures e.baseDuration == Span(OneHour) && e.tzinfo == Floating
    ensures e.location.None? && e.baseTransparency == Confirmed
  {
    Event(None, Span(OneHour), false, false, Floating, None, Confirmed)
  }

  /** The state the maintained constraint accepts: an aware start (if any) and a non-negative span. */
  predicate Valid(e: Event) {
    && (e.baseStart.Some? ==> Aware(e.baseStart.value))
    && e.baseDuration.Span?
    && e.baseDuration.seconds >= 0
  }

  /** `any_time`: requested any-time, and not overridden by all-day. */
  function AnyTime(e: Event): bool {
    e.baseAnyTime && !e.allDay
  }

  /** `is_day`: the event occupies whole days. */
  function IsDay(e: Event): (r: bool)
    ensures r <==> e.allDay || e.baseAnyTime
    ensures e.allDay ==> r && !AnyTime(e)
    ensures AnyTime(e) ==> r
  {
    e.allDay || AnyTime(e)
  }

  /** Any-time events are exactly the day events that are not all-day. */
  lemma AnyTimeIsTimelessDay(e: Event)
    ensures AnyTime(e) <==> IsDay(e) && !e.allDay
  {
  }

  /** What reading `start` needs: a timed event converts its start, which must then be aware. */
  predicate StartReadable(e: Event) {
    e.baseStart.None? || Aware(e.baseStart.value) || IsDay(e)
  }

  /**
   `start`: absent with no base start; a timed event shows the base start's
   instant in `tzinfo`; a day event starts at floating midnight of the base
   start's own local date.
   */
  function Start(e: Event): (r: Option<DateTime>)
    requires StartReadable(e)
    ensures r.None? <==> e.baseStart.None?
    ensures r.Some? ==> Aware(r.value)
    ensures r.Some? && !IsDay(e) ==>
      && r.value.zone == Some(e.tzinfo)
      && Instant(r.value) == Instant(e.baseStart.value)
    ensures r.Some? && IsDay(e) ==>
      && r.value.zone == Some(Floating)
      && Date(r.value) == Date(e.baseStart.value)
      && r.value.wall % SecondsPerDay == 0
      && r.value.wall <= e.baseStart.value.wall < r.value.wall + SecondsPerDay
  {
    match e.baseStart
    case None => None
    case Some(b) =>
      if !IsDay(e) then Some(AsTimezone(b, e.tzinfo))
      else Some(MidnightFloating(Date(b)))
  }

  /**
   `duration` in seconds: the base span for a timed event; for a day event
   the base span's whole days, rounded down, but at least one day.
   */
  function Duration(e: Event): (r: int)
    requires e.baseDuration.Span?
    ensures !IsDay(e) ==> r == e.baseDuration.seconds
    ensures IsDay(e) ==>
      && r % SecondsPerDay == 0
      && r >= SecondsPerDay
      && (e.baseDuration.seconds < 2 * SecondsPerDay ==> r == SecondsPerDay)
      && (e.baseDuration.seconds >= SecondsPerDay ==>
            r <= e.baseDuration.seconds < r + SecondsPerDay)
  {
    if !IsDay(e) then e.baseDuration.seconds
    else
      var days := Days(e.baseDuration.seconds);
      (if days < 1 then 1 else days) * SecondsPerDay
  }

  /** `end`: the start moved forward by the duration, in the start's zone. */
  function End(e: Event): (r: Option<DateTime>)
    requires StartReadable(e) && (e.baseStart.Some? ==> e.baseDuration.Span?)
    ensures r.None? <==> e.baseStart.None?
    ensures r.Some? ==>
      && Aware(r.value)
      && r.value.zone == Start(e).value.zone
      && Instant(r.value) == Instant(Start(e).value) + Duration(e)
    ensures r.Some? && e.baseDuration.Span? && e.baseDuration.seconds >= 0 ==>
      Instant(Start(e).value) <= Instant(r.value)
  {
    match Start(e)
    case None => None
    case Some(s) => Some(AddSpan(s, Duration(e)))
  }

  /**
   What the model needs to give `implied_transparency` a value: a span, unless
   `any_time` short-circuits. For a timed event with another value Python
   only tests that value's truthiness; the model has no truthiness for it.
   */
  predicate ImpliedReadable(e: Event) {
    AnyTime(e) || e.baseDuration.Span?
  }

  /** `implied_transparency`: "fyi" for any-time and zero-length events, otherwise absent. */
  function ImpliedTransparency(e: Event): (r: Option<string>)
    requires ImpliedReadable(e)
    ensures r.Some? ==> r.value == Fyi
    ensures r.Some? <==>
      !e.allDay && (e.baseAnyTime || e.baseDuration.seconds == 0)
  {
    if AnyTime(e) || Duration(e) == 0 then Some(Fyi) else None
  }

  /** `transparency`: the implied transparency when there is one, else the base transparency. */
  function Transparency(e: Event): (r: string)
    requires ImpliedReadable(e)
    ensures r == Fyi || r == e.baseTransparency
    ensures ImpliedTransparency(e).None? ==> r == e.baseTransparency
    ensures AnyTime(e) ==> r == Fyi
    ensures e.allDay ==> r == e.baseTransparency
    ensures !IsDay(e) && e.baseDuration.seconds == 0 ==> r == Fyi
  {
    match ImpliedTransparency(e)
    case Some(t) => t
    case None => e.baseTransparency
  }

  /** `is_started` at the instant `now`: no start counts as started, else the start is not in the future. */
  function IsStarted(e: Event, now: int): (r: bool)
    requires StartReadable(e)
    ensures e.baseStart.None? ==> r
    ensures e.baseStart.Some? && !IsDay(e) ==>
      (r <==> Instant(e.baseStart.value) <= now)
    ensures e.baseStart.Some? && IsDay(e) ==>
      (r <==> Date(e.baseStart.value) * SecondsPerDay <= now)
  {
    match Start(e)
    case None => true
    case Some(s) => Instant(s) <= now
  }

  /**
   `constraints`: a naive base start is reported first; then a base duration
   that is not a span or is negative; otherwise the state passes.
   */
  function Constraints(e: Event): (r: Outcome<ConstraintError>)
    ensures r.Pass? <==> Valid(e)
    ensures r.Fail? && r.error.NaiveTimezoneError? <==>
      e.baseStart.Some? && !Aware(e.baseStart.value)
    ensures r.Fail? && r.error.NaiveTimezoneError? ==> r.error.start == e.baseStart.value
    ensures r.Fail? && r.error.BadDurationError? <==>
      && (e.baseStart.None? || Aware(e.baseStart.value))
      && (e.baseDuration.NotASpan? || e.baseDuration.seconds < 0)
    ensures r.Fail? && r.error.BadDurationError? ==> r.error.duration == e.baseDuration
  {
    if e.baseStart.Some? && e.baseStart.value.zone.None? then
      Fail(NaiveTimezoneError(e.baseStart.value))
    else if !e.baseDuration.Span? || e.baseDuration.seconds < 0 then
      Fail(BadDurationError(e.baseDuration))
    else
      Pass
  }

  /** A state the constraint accepts can have every derived field read. */
  lemma ValidIsReadable(e: Event)
    requires Constraints(e).Pass?
    ensures StartReadable(e) && ImpliedReadable(e) && e.baseDuration.Span?
    ensures End(e).Some? ==> Instant(Start(e).value) <= Instant(End(e).value)
  {
  }

  /** Setting `all_day` fixes every time-related flag and the transparency. */
  lemma AllDayEvent(e: Event)
    requires e.allDay && e.baseDuration.Span?
    ensures IsDay(e) && !AnyTime(e)
    ensures Duration(e) >= SecondsPerDay && Duration(e) % SecondsPerDay == 0
    ensures ImpliedTransparency(e).None?
    ensures Transparency(e) == e.baseTransparency
  {
  }

  /** Setting `base_any_time` without `all_day` makes a day event whose transparency is "fyi". */
  lemma AnyTimeEvent(e: Event)
    requires e.baseAnyTime && !e.allDay
    ensures AnyTime(e) && IsDay(e)
    ensures ImpliedTransparency(e) == Some(Fyi)
    ensures Transparency(e) == Fyi
  {
  }
}
