# Chandler calendar events and sidebar, in Dafny

This project models two pieces of the Chandler personal-information manager.

- **The calendar-event add-on** (`Chandler-App/chandler/event.py`). An event has seven writable inputs: base start, base duration, all-day, base any-time, zone, location and base transparency. Every other field is derived from them: any-time, is-day, start, duration, end, implied transparency, transparency and is-started. A maintained constraint rejects a naive start and a bad duration. The triage hook turns an event's start into triage windows. The field-visibility add-on derives four UI hints from the event, if there is one.
- **The sidebar** (`Chandler-App/chandler/sidebar.py`). Each sidebar entry wraps a collection. It gets a sort key and a hue from two process-wide generators, and starts unchecked. The sidebar table has an icon column and a name column. A filter choice ("All" or "Calendar") restricts the selected entry's items.

The seven inputs are declared through `inherited_attrs`, whose lookup rules live in `chandler.core`, which is not part of this model. The `Event` record holds the values the inputs resolve to; where a value comes from is not modelled.

In the original, the derived fields are reactive cells that recompute when their inputs change. Here each one is a pure function of an immutable `Event` record. The two generators become an explicit `Allocator` value that is threaded through entry creation.

Files:

- `wrappers.dfy`: `Option` and `Outcome`.
- `times.dfy`: a fixed-offset model of `datetime`/`timedelta`. A date-time is a wall-clock reading in seconds plus an optional zone; no zone means a naive date-time. A zone is `Floating` or `Fixed(offset)`. The instant a date-time denotes is its wall clock minus the zone's offset. `date()` and `timedelta.days` are floor division by 86400.
- `event.dfy` (module `Events`): the inputs, the derived fields and `Constraints`. It also holds `Item`, which carries an optional installed event (`InstalledOn`).
- `event_hooks.dfy` (module `EventHooks`): `EventTriage` and `EventFieldVisibility`.
- `sidebar.dfy` (module `Sidebar`): the allocator, entry creation, the column values and the filters.

Each derived field requires enough of the inputs to have a defined value:

- `Duration` requires a `timedelta` base duration. For a timed event this is stricter than the source (see "Left out").
- `End` requires what `Start` requires, and a `timedelta` only when there is a base start.
- `Start` requires an aware base start, unless the event is a day event. A day event only takes `.date()` of the base start, which works on a naive date-time too.
- `ImpliedTransparency` requires a `timedelta`, unless any-time short-circuits the `or`. `Transparency` and `EventFieldVisibility` inherit this requirement. For a timed event this is stricter than the source (see "Left out").
- A state that `Constraints` accepts satisfies all of these (`ValidIsReadable`).

Two details of the code:

- For a day event, the duration is `max(1, base_duration.days)` days. That rounds DOWN to whole days, not up.
- The hue cycle is `210, 120, 0, 30, 50, 300, 170, 330, 270`, in the order of the tuple in `sidebar.py`. It is not in ascending order.

## Model

| member | source | states |
|---|---|---|
| Times.Days | Chandler-App/chandler/event.py:46 | `timedelta.days` is the floor of seconds over one day: `r*86400 <= s < (r+1)*86400`, and it is non-negative for a non-negative span |
| Times.AsTimezone | Chandler-App/chandler/event.py:31 | `astimezone(z)` yields an aware date-time in zone `z` that denotes the same instant |
| Times.AsTimezoneRoundTrip | Chandler-App/chandler/event.py:31 | converting to another zone and back to the original zone restores the date-time exactly |
| Times.MidnightFloating | Chandler-App/chandler/event.py:11 | combining a date with floating midnight gives a floating-zone date-time on that date, at a whole-day boundary |
| Times.AddSpan | Chandler-App/chandler/event.py:50 | adding a `timedelta` to an aware date-time keeps its zone and moves its instant by exactly the span |
| Events.DefaultEvent | Chandler-App/chandler/event.py:9-24 | the declared defaults: no start, a one-hour duration, not all-day, not any-time, floating zone, no location, "confirmed"; this state passes the constraint |
| Events.AnyTimeIsTimelessDay | Chandler-App/chandler/event.py:53-59 | the any-time events are exactly the day events that are not all-day |
| Events.IsDay | Chandler-App/chandler/event.py:57-59 | is-day holds exactly when all-day or base any-time is set; all-day forces is-day and rules out any-time |
| Events.Start | Chandler-App/chandler/event.py:26-33 | start is absent exactly when the base start is. It is always aware. For a timed event it is the same instant in `tzinfo`. For a day event it is in the floating zone, on the base start's own local date, at a whole-day boundary (midnight), and at most one day before the base start |
| Events.Duration | Chandler-App/chandler/event.py:41-46 | a timed event keeps the base span. A day event gets a whole number of days, at least one. The base span rounds down: it is one day below two days, and otherwise the span lies within one day above the duration |
| Events.End | Chandler-App/chandler/event.py:48-51 | end is absent exactly when start is absent, whatever the base duration holds. Otherwise it keeps the start's zone, and its instant is the start's instant plus the duration. It is never before the start when the base span is non-negative |
| Events.ImpliedTransparency | Chandler-App/chandler/event.py:68-71 | the implied transparency is "fyi" or absent. It is present exactly when the event is not all-day and is either any-time or of zero base duration |
| Events.Transparency | Chandler-App/chandler/event.py:61-66 | transparency is "fyi" or the base transparency. It is the base value when nothing is implied or the event is all-day, and "fyi" for any-time events and zero-length timed events |
| Events.IsStarted | Chandler-App/chandler/event.py:35-39 | an event without a start counts as started. A timed event has started once its base start's instant is at or before `now`. A day event has started once midnight of its date is at or before `now` |
| Events.Constraints | Chandler-App/chandler/event.py:73-80 | passes exactly on valid states. A naive base start fails first, with `NaiveTimezoneError` carrying the start (the source carries its `repr`). Otherwise a non-`timedelta` or negative base duration fails with `BadDurationError` carrying the duration |
| Events.ValidIsReadable | Chandler-App/chandler/event.py:73-80 | once the constraint passes, every derived field can be read, and the end is not before the start |
| Events.AllDayEvent | Chandler-App/chandler/event.py:41-71 | an all-day event is a day event, not any-time, lasts whole days (at least one), implies no transparency and shows its base transparency |
| Events.AnyTimeEvent | Chandler-App/chandler/event.py:53-71 | any-time without all-day gives a day event whose implied and actual transparency are "fyi" |
| EventHooks.EventTriage | Chandler-App/chandler/event.py:83-92 | no windows exactly when no event is installed or the event has no start. Otherwise exactly LATER from 0, then NOW from the start's timestamp |
| EventHooks.TriageAgreesWithIsStarted | Chandler-App/chandler/event.py:83-92 | from timestamp 0 on, the windows classify an instant as NOW exactly when the event has started by then, and as LATER before that |
| EventHooks.EventFieldVisibility | Chandler-App/chandler/event.py:103-126 | all four hints are off without an event. Otherwise each hint is stated in terms of the inputs. Showing the zone implies showing the time. Clearing the time implies the time shows while the zone and the transparency do not |
| Sidebar.InitialAllocator | Chandler-App/chandler/sidebar.py:7-8 | the generators start at sort key 1, at the first hue of the cycle |
| Sidebar.PaletteColor | Chandler-App/chandler/sidebar.py:7 | every colour handed out has a hue from the cycle, saturation 0 and value 0 |
| Sidebar.NewEntry | Chandler-App/chandler/sidebar.py:6-22 | a new entry takes the next sort key and the palette colour for that key. It starts unchecked and holds the given collection. The generators advance by exactly one and stay in step |
| Sidebar.PaletteIsPeriodic | Chandler-App/chandler/sidebar.py:7 | the colour of key `n + 9` equals that of key `n` |
| Sidebar.CreateEntries | Chandler-App/chandler/sidebar.py:10-22 | creating one entry per collection gives consecutive sort keys starting at the generator's next key. Each entry gets its key's colour, is unchecked and holds its collection. Each entry's icon column shows its colour unchecked and its name column its collection's title. All keys lie between the old and new next key; keys strictly increase and hues repeat with period 9 |
| Sidebar.CreateFirstEntries | Chandler-App/chandler/sidebar.py:7-16 | the N-th entry ever created gets sort key N and hue `(N-1) mod 9` of the cycle |
| Sidebar.NewEntryColumns | Chandler-App/chandler/sidebar.py:29-38 | a new entry's icon value is its palette colour with checked false, and its name value is its collection's title |
| Sidebar.Filter | Chandler-App/chandler/sidebar.py:46-49 | the filtered items are exactly the admitted input items, no more of each than the input has. The "All" choice keeps everything |
| Sidebar.FilterConcat | Chandler-App/chandler/sidebar.py:46-49 | filtering distributes over concatenation, so admitted items keep their original order |
| Sidebar.FilterIdempotent | Chandler-App/chandler/sidebar.py:46-49 | filtering an already filtered list with the same choice changes nothing |
| Sidebar.FilteredItems | Chandler-App/chandler/sidebar.py:46-65 | "All" yields the selected collection's items unchanged. "Calendar" yields exactly those items with an event installed. Either way the result is a sub-multiset of the selected items |

## Left out

- The reactive engine: dependency tracking, memoisation and propagation timing. Derived fields are pure functions of the current inputs instead.
- The `TypeError` that the reactive engine may raise instead of the naive-start check. `Constraints` always performs the check.
- Time-zone database lookups and real calendar arithmetic. Zones are fixed offsets. The floating zone is read as offset 0, although at run time it follows the user's default zone. A date is the wall-clock seconds floor-divided by one day.
- Sub-second parts of `datetime` and `timedelta`. All times are whole seconds.
- `chandler.time_services` is not part of this model. `timestamp(start)` is taken as the start's instant. `is_past(start)` is taken as "instant at or before `now`", with `now` a parameter instead of the wall clock.
- `chandler.triage` is not part of this model. The LATER/NOW constants are a two-value datatype. `StatusAt` reads a window list as "the status of the last window that has begun"; it is used only to relate the hook's windows to `IsStarted`.
- Events.Start: a Python `datetime` only covers the years 1 to 9999, and `astimezone` raises `OverflowError` outside that range. The model's wall clocks are unbounded integers, so it returns a value there instead. Times.AsTimezone has the same gap.
- Events.End: `start + duration` raises `OverflowError` when the result leaves the years 1 to 9999. The model returns a value there instead, for the same reason. Times.AddSpan has the same gap.
- Events.ImpliedTransparency: for a timed event whose base duration is not a `timedelta`, Python returns that value as the duration and tests only its truthiness, so it does not raise. The model has no truthiness for an arbitrary value, so it requires a `timedelta` unless the event is any-time. `Constraints` rejects that state. 
- Events.Transparency: inherits the requirement of `ImpliedTransparency`, for the same reason. For a timed event whose base duration is not a `timedelta`, Python does not raise.
- EventHooks.EventFieldVisibility: inherits the requirement of `ImpliedTransparency` through `show_transparency`, for the same reason.
- Events.Constraints: `NaiveTimezoneError` carries the rejected date-time itself, not the `repr` string the source passes.
- Events.Duration: with a base duration that is not a `timedelta`, Python either returns that value unchanged (timed event) or raises `AttributeError` (day event). The model requires a `timedelta` instead; `Constraints` rejects every other value.
- Events.Start: for a timed event with a naive base start, `astimezone` raises. The model requires a readable start instead; `Constraints` rejects this state first.
- The add-on attachment machinery (`Extension`, `ItemAddOn`). Whether an event is installed on an item is the item's optional `event` field.
- `core.FilteredSubset` is not part of this model. It is modelled as an order-preserving filter over the item sequence.
- The case of no selected sidebar entry. There, the source's `selected_item.collection` would raise; `FilteredItems` takes an entry.
- Sidebar.NewEntry: passing `sort_key`, `hsv_color` or `collection` to the constructor, and later writes to those writable cells, are not modelled. Every entry draws from both generators, and its collection is a parameter. The default `core.Collection()` is not part of this model.
- UI wiring: `core.Table`, `TableColumn`, `Choice` labels and help text, `__repr__`, and `load_interaction`. The column getters are the plain functions `IconValue` and `NameValue`. The filter choices are the two values of `FilterChoice`, and `Admits` gives the predicate each one stands for.
- Concurrency: the generators are single-threaded state, threaded explicitly through creation.
