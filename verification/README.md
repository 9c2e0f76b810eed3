# Salon booking availability — a Dafny model

This project models the core of a salon appointment-booking service that keeps
its bookings as events in an external team calendar. The core is made of two parts:

- The booking manager (`src/BookingManager.js`). It checks a requested interval
  against the day's events, generates bookable slots with a 15-minute buffer
  around existing events, and creates, updates, cancels and reschedules bookings
  as calendar events. It also builds a booking report, filters and sorts upcoming
  bookings, and formats the notes text.
- The calendar client's simpler slot generator (`src/TeamupClient.js`,
  `getAvailableSlots`). It uses fixed hours 09:00–17:00, no buffer and no
  end-of-day check.

## How the model reads the program

- Every `Date` is an integer number of local wall-clock minutes. A calendar day
  is the minute of its local midnight. `setHours(h)` becomes `day + 60*h`.
  `format(..., 'yyyy-MM-dd')` becomes `t / 1440`. `HH:mm` becomes `t % 1440`.
- The external calendar is a map from event id to event (`Lifecycle.Store`).
  `getEvent` on an unknown id is the `NotFound` error. The id that `createEvent`
  assigns is a parameter, and it must not already be in the store. Whatever
  `getEvents` returns is a parameter `events`/`fetched: seq<Event>`. That
  covers the conflict check, both slot generators, reschedule and the report.
- JavaScript falsiness is modelled explicitly:
  - A missing text field and `""` are both `""`.
  - A missing subcalendar id is `0`.
  - A missing start time is `None`.
  - An exclusion id of `None` or `Some("")` excludes nothing.
  - A duration of `Some(0)` falls back to the event's length under `||`, in
    update and reschedule.
  - Create uses a parameter default instead, so only an absent duration becomes 60.
- Each operation returns `Reply(store, result)`. The claim "a failed call
  leaves the store unchanged" is stated about that store.
- Throwing is modelled as `Result.Err` carrying `ValidationError`, `NotFound` or `SlotUnavailable`.

Behaviour of the code that a reader might not expect:

- The conflict checks never skip cancelled events (`src/BookingManager.js:185-194`,
  `312-320`). `Lifecycle.CancelledBookingStillBlocks` proves that a
  cancelled booking still blocks its former interval.
- `createBooking` and `updateBooking` do no availability check, even though the
  configuration says `allowOverbooking: false`. `Lifecycle.CreateBooking`
  succeeds exactly when the three required fields are present.
  `Lifecycle.UpdateBooking` succeeds exactly when the id exists.
- With working hours 09:00–15:00, 60-minute slots and a booking at 10:00–11:00,
  the 15-minute buffer blocks every start from 09:00 to 11:00, and 11:15 is never
  a candidate because starts lie on the half-hour grid. The free starts are
  exactly 11:30 through 14:00 (`TimeSlots.WorkedExample`).
- There is no weekly-schedule resolver in the code. Working hours arrive as a
  `{start, end}` pair of hours.

## Model

| member | source | states |
|---|---|---|
| `Availability.Conflicts` | src/BookingManager.js:185-194 | the filtered list holds exactly the fetched events that are not excluded and overlap `[start, start+duration)` half-open, and is never longer than the input |
| `Availability.CheckAvailability` | src/BookingManager.js:174-200 | available iff every fetched event is either the truthy excluded id or satisfies `!(start < eventEnd && start+duration > eventStart)` |
| `Availability.ExcludedEventIgnored` | src/BookingManager.js:186-188 | adding the event whose id equals a truthy `excludeEventId` (at either end of the list) never changes the answer |
| `Availability.FalsyExclusionConsidersAll` | src/BookingManager.js:186-188 | with a null or empty exclusion id, any overlapping event, including one carrying that id, makes the slot unavailable |
| `Availability.TouchingNeverConflicts` | src/BookingManager.js:193 | events that end exactly where the candidate starts or start where it ends never make it unavailable |
| `Availability.AvailabilityOfConcat` | src/BookingManager.js:185-196 | checking the concatenation of two fetched lists is the conjunction of checking each |
| `TimeSlots.AnyBufferedClash` | src/BookingManager.js:312-320 | `events.some` with the buffered test holds iff some event widened by 15 minutes on both sides overlaps the slot |
| `TimeSlots.SlotsFrom` | src/BookingManager.js:306-333 | every slot emitted from a cursor lies on the half-hour grid from it, starts before the day's end, ends at start+duration no later than the day's end, carries the requested duration; starts strictly ascend |
| `TimeSlots.GetAvailableTimeSlots` | src/BookingManager.js:290-335 | with default duration 60 and hours 9–17, every slot lies in `[dayStart, dayEnd]`, starts at `dayStart + 30k`, has `end = start + duration`, and slots are strictly ascending (so duplicate-free) |
| `TimeSlots.ComputeTimeSlots` | src/BookingManager.js:299-335 | the source's `while` loop, accumulating in place, returns exactly the recursive generator's slots |
| `TimeSlots.SlotsFromMembership` | src/BookingManager.js:306-333 | a start is emitted iff it is on the grid from the cursor, before the day's end, its slot fits, and no buffered clash exists |
| `TimeSlots.TimeSlotMembership` | src/BookingManager.js:300-328 | `t` is offered iff `t = dayStart + 30k < dayEnd`, `t + duration <= dayEnd`, and for every event `!(t < end+15 && t+duration > start-15)`; only the event is widened |
| `TimeSlots.OverrunYieldsNothing` | src/BookingManager.js:308-311 | once the cursor's slot overruns the day's end, the generator emits nothing more |
| `TimeSlots.TooLongYieldsNothing` | src/BookingManager.js:306-311 | a slot duration longer than the working day yields an empty list |
| `TimeSlots.BufferWidensOnlyTheEvent` | src/BookingManager.js:316-319 | a slot ending exactly 15 minutes before an event, or starting exactly 15 minutes after it, is offered; one minute closer is not |
| `TimeSlots.WorkedExample` | src/BookingManager.js:306-333 | 09:00–15:00, 60 minutes, one event 10:00–11:00: the result is exactly the six one-hour slots starting 11:30, 12:00, 12:30, 13:00, 13:30 and 14:00, in that order |
| `ClientSlots.AnyClash` | src/TeamupClient.js:112-116 | `events.some` holds iff some event overlaps the slot half-open, with no buffer |
| `ClientSlots.SlotsFrom` | src/TeamupClient.js:109-127 | at most one slot per cursor position; every slot is on the grid, starts before the end time, has `end = start + duration`; starts strictly ascend; no end-of-day containment |
| `ClientSlots.GetAvailableSlots` | src/TeamupClient.js:89-129 | at most 16 slots, each starting at `09:00 + 30k` before 17:00, with the requested duration (default 60) and `end = start + duration`, strictly ascending |
| `ClientSlots.SlotsFromMembership` | src/TeamupClient.js:109-127 | a start is emitted iff it is a grid position before the end time whose slot no event overlaps |
| `ClientSlots.SlotMembership` | src/TeamupClient.js:101-129 | the output is exactly the candidate starts `09:00 + 30k < 17:00` with no event satisfying `start < eventEnd && slotEnd > eventStart`, in ascending order |
| `ClientSlots.EmptyDayOffersEveryCandidate` | src/TeamupClient.js:103-127 | with no events, the k-th slot starts at `from + 30k` and there is one slot per cursor position |
| `ClientSlots.NoClosingTimeCheck` | src/TeamupClient.js:109-124 | with no events there are 16 slots and the last, 16:30–17:30, ends after 17:00 |
| `ClientSlots.BufferedSlotsAreClientSlots` | src/TeamupClient.js:112-116 | every start the buffered generator offers for 09:00–17:00 is also offered by the unbuffered one |
| `Notes.FormatNotes` | src/BookingManager.js:341-356 | the text is empty iff there is neither customer info nor notes; with customer info it starts with the header and the Name, Email and Phone lines, each empty field written `N/A`; without it the text is just the notes section; non-empty notes end it, after `\nNotes:\n`; the text is exactly as long as the customer block and the notes section together, so nothing else is written |
| `Notes.NotesSectionInjective` | src/BookingManager.js:351-353 | distinct notes give distinct notes sections |
| `Notes.NotesAreRecoverable` | src/BookingManager.js:341-356 | for the same customer info, equal notes texts come from equal additional notes |
| `Notes.EmptyFieldsPrintAsNA` | src/BookingManager.js:346-348 | an empty customer name is written exactly like the literal `N/A` |
| `Lifecycle.CreateBooking` | src/BookingManager.js:14-63 | succeeds iff title, subcalendar and start are truthy, else `ValidationError` with the store unchanged; the new event is stored under the calendar's id with end = start + duration (60 when absent), the request's location, formatted notes, a 15-minute reminder unless `reminder` is false, and, iff customer info is given, status `confirmed` with the customer's name, email and phone (otherwise no custom fields); no availability check |
| `Lifecycle.UpdateBooking` | src/BookingManager.js:65-101 | fails with `NotFound` iff the id is unknown; otherwise supplied fields replace stored ones, the interval moves only when a start is supplied and keeps its length unless a non-zero duration is given, customer info rewrites the customer fields and the notes, and nothing else changes; no availability check |
| `Lifecycle.CancelBooking` | src/BookingManager.js:103-129 | fails with `NotFound` iff the id is unknown; otherwise the event stays stored (same key set), its title gains `[CANCELLED] `, its status becomes `cancelled` and the reason is recorded; every other field is unchanged |
| `Lifecycle.RescheduleBooking` | src/BookingManager.js:131-172 | unknown id gives `NotFound`; otherwise it succeeds iff the new interval (new duration or the old length) is available excluding the booking's own id; on failure the store is unchanged; on success only start, end and `original_time` (the old start) change |
| `Lifecycle.RescheduleOntoOtherBookingFails` | src/BookingManager.js:138-147 | a new interval overlapping another fetched event gives `SlotUnavailable` and the unchanged store |
| `Lifecycle.RescheduleIgnoresItself` | src/BookingManager.js:138-143 | with a truthy id, overlapping only the booking itself never blocks the move |
| `Lifecycle.RescheduleThereAndBack` | src/BookingManager.js:133-158 | moving a booking and then back to its old start restores its interval and records the intermediate start as `original_time` |
| `Lifecycle.CancelledBookingStillBlocks` | src/BookingManager.js:185-194 | a cancelled booking with a non-empty interval still makes its own former interval unavailable |
| `Lifecycle.CancelTwiceStacksPrefix` | src/BookingManager.js:107-116 | cancelling twice prefixes the title twice; cancel is not idempotent |
| `Reports.Active` | src/BookingManager.js:377 | keeps exactly the events whose status is not `cancelled`, a sub-multiset of the input |
| `Reports.CancelledOnly` | src/BookingManager.js:378 | keeps exactly the events whose status is `cancelled`, a sub-multiset of the input |
| `Reports.PartitionSizes` | src/BookingManager.js:376-378 | confirmed plus cancelled counts equal the total, and the two filters partition the events as multisets |
| `Reports.TallyDays` | src/BookingManager.js:384-386 | a day is a key of `bookingsByDay` iff some event starts on it, and its count is the number of events starting on it |
| `Reports.DaysSeen` | src/BookingManager.js:384-386 | each day at most once, and exactly the days some event starts on |
| `Reports.DaysSeenInFirstAppearanceOrder` | src/BookingManager.js:383-386 | the days are listed in the order the `forEach` first creates their keys: any event on a later-listed day comes after some event on each earlier-listed day |
| `Reports.TallySum` | src/BookingManager.js:384-386 | the per-day counts, summed over the keys, equal the number of events |
| `Reports.DayCountPositive` | src/BookingManager.js:384-386 | every event's own day has a positive count |
| `Reports.Entries` | src/BookingManager.js:391-398 | one report entry per event, in event order |
| `Reports.TotalMinutesOfConcat` | src/BookingManager.js:388-389 | the accumulated length of two event lists together is the sum of their lengths |
| `Reports.TotalMinutesBounds` | src/BookingManager.js:388-389 | when no event ends before it starts, the total is at least each event's length |
| `Reports.TotalMinutesNonNegative` | src/BookingManager.js:388-389 | when no event ends before it starts, the total is non-negative |
| `Reports.GenerateBookingReport` | src/BookingManager.js:358-405 | the period is the requested one; `totalBookings` is the number of events and of entries; `confirmedBookings` is the number of non-cancelled events and `cancelledBookings` of cancelled ones, summing to the total; `totalMinutes` is the summed event length; the entries are `Entries(events)`; per-day counts sum to the total and match the events per day; entry `i` has event `i`'s id and shows `cancelled` iff that event is cancelled |
| `Reports.InsertPermutes` | src/BookingManager.js:271 | insertion adds exactly the one event |
| `Reports.InsertSorted` | src/BookingManager.js:271 | insertion into a start-sorted list keeps it sorted |
| `Reports.SortByStart` | src/BookingManager.js:271 | the result is sorted by start and is a permutation of the input |
| `Reports.WithStartMembership` | src/BookingManager.js:271 | the tie group of start `t` holds exactly the events that start at `t` |
| `Reports.InsertStable` | src/BookingManager.js:271 | insertion puts the event first in its own tie group and leaves every tie group otherwise as it was |
| `Reports.ActiveOfActive` | src/BookingManager.js:270 | filtering a list that holds no cancelled event returns it unchanged, in the same order |
| `Reports.ActiveWithStart` | src/BookingManager.js:270 | for every start time, filtering by status and then taking the events with that start gives the same list as the other way round, order included |
| `Reports.SortStable` | src/BookingManager.js:271 | the sort is stable: for every start time, the events starting then keep their input order |
| `Reports.UpcomingBookings` | src/BookingManager.js:269-271 | the result is sorted by start, is a permutation of the non-cancelled events, contains exactly the events that are not cancelled; for every start time, the result's events with that start are the input's non-cancelled events with that start, in input order, and when none of them is cancelled they are the input's events with that start exactly |

## Left out

- HTTP routing in `server.js`, the axios calls of `src/TeamupClient.js`, `config.js` data and the test and demo scripts. These are I/O and static data. The calendar is modelled only as a store and as fetched event lists.
- Failures of the calendar calls themselves (network, authentication, rate limits) are not modelled. Only `NotFound` for an unknown id is.
- Clock-dependent fields are left out: `cancelled_at`, `last_rescheduled`, `daysUntil`, and the `new Date()` fallback for a missing date. The day is always a parameter.
- The floating-point `totalHours` of the report is replaced by the integer `totalMinutes`, the sum of event lengths.
- Time zones, daylight-saving changes and date parsing are left out. `differenceInMinutes` is exact subtraction of minute timestamps.
- `getUpcomingBookings`: `addDays` is not imported in `src/BookingManager.js`, so the method as written throws before fetching. Only its filter and sort step is modelled. The per-booking projection (`daysUntil`, customer fields) is also not modelled.
- Reports.GenerateBookingReport: `bookingsByDay` is a `map`, so the key order of the JavaScript object is not part of the report value. That order is given separately by `Reports.DaysSeen`, proved to be the order of first appearance.
- `getBookingsByDate` and `getBookingsByCustomer` are left out. Both are fetch-and-project wrappers around the calendar's queries.
- `updateBooking` copies every key of the request body into the event. The model covers only the fields the booking form sends: title, notes, location, startTime, duration and customerInfo. Arbitrary extra keys, such as a raw `custom` or `start_dt`, are not modelled.
- Lifecycle.CreateBooking: the event the calendar echoes back is taken to be the event that was sent.
- The booking summaries returned to callers (`bookingId`, `message`, `status`) are not modelled. The model returns the stored event.
