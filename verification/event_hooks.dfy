/**
 The two consumers of the event add-on that live beside it: the triage hook,
 which turns an event's start into ranked triage windows, and the field
 visibility hints an editing form reads.
 */
module EventHooks {
  import opened Wrappers
  import opened Times
  import opened Events

  /** The triage states the hook produces. */
  datatype TriageStatus = Now | Later

  /** A triage window: from timestamp `from` onwards the item has `status`. */
  datatype Window = Window(from: int, status: TriageStatus)

  /** What reading the hook needs: an installed event must have a readable start. */
  predicate TriageReadable(item: Item) {
    item.event.None? || StartReadable(item.event.value)
  }

  /**
   `event_triage`: no windows for an item without an event or without a
   start; otherwise LATER from timestamp zero and NOW from the start.
   */
  function EventTriage(item: Item): (r: seq<Window>)
    requires TriageReadable(item)
    ensures r == [] <==> !InstalledOn(item) || item.event.value.baseStart.None?
    ensures r != [] ==>
      && |r| == 2
      && r[0] == Window(0, Later)
      && r[1] == Window(Instant(Start(item.event.value).value), Now)
  {
    if !InstalledOn(item) then []
    else
      match Start(item.event.value)
      case None => []
      case Some(s) => [Window(0, Later), Window(Instant(s), Now)]
  }

  /**
   How a list of windows classifies the instant `t`: the status of the last
   window that has begun by `t`, or none if no window has begun.
   */
  function StatusAt(windows: seq<Window>, t: int): (r: Option<TriageStatus>)
    ensures r.None? <==> forall i :: 0 <= i < |windows| ==> windows[i].from > t
    ensures r.Some? ==> exists i :: 0 <= i < |windows| && windows[i].from <= t && windows[i].status == r.value
  {
    if windows == [] then None
    else
      var last := windows[|windows| - 1];
      if last.from <= t then Some(last.status)
      else StatusAt(windows[..|windows| - 1], t)
  }

  /**
   From timestamp zero on, the triage windows of an event with a start say
   NOW exactly when the event has started and LATER before that.
   */
  lemma TriageAgreesWithIsStarted(item: Item, t: int)
    requires InstalledOn(item) && StartReadable(item.event.value)
    requires item.event.value.baseStart.Some?
    requires t >= 0
    ensures StatusAt(EventTriage(item), t) ==
      Some(if IsStarted(item.event.value, t) then Now else Later)
  {
  }

  /** The four visibility hints of an event editing form. */
  datatype FieldVisibility = FieldVisibility(
    showTime: bool,
    clearTime: bool,
    showTimezone: bool,
    showTransparency: bool
  )

  /** What reading the hints needs: an installed event must have a readable implied transparency. */
  predicate VisibilityReadable(item: Option<Item>) {
    item.None? || item.value.event.None? || ImpliedReadable(item.value.event.value)
  }

  /**
   `EventFieldVisibility` for an optional item: every hint is off without an
   event; otherwise the time shows unless all-day, can be cleared when
   any-time, the zone shows for timed events and the transparency shows
   when nothing is implied.
   */
  function EventFieldVisibility(item: Option<Item>): (r: FieldVisibility)
    requires VisibilityReadable(item)
    ensures item.None? || !InstalledOn(item.value) ==>
      r == FieldVisibility(false, false, false, false)
    ensures item.Some? && InstalledOn(item.value) ==>
      var e := item.value.event.value;
      && (r.showTime <==> !e.allDay)
      && (r.clearTime <==> e.baseAnyTime && !e.allDay)
      && (r.showTimezone <==> !e.allDay && !e.baseAnyTime)
      && (r.showTransparency <==>
            e.allDay || (!e.baseAnyTime && e.baseDuration.seconds != 0))
    ensures r.showTimezone ==> r.showTime
    ensures r.clearTime ==> r.showTime && !r.showTimezone && !r.showTransparency
  {
    if item.None? || !InstalledOn(item.value) then
      FieldVisibility(false, false, false, false)
    else
      var e := item.value.event.value;
      FieldVisibility(!e.allDay, AnyTime(e), !IsDay(e), ImpliedTransparency(e).None?)
  }
}
