/**
 * The calendar's data model: events as stored by the external calendar, the
 * customer details a booking carries, and the slots the generators emit.
 * Every timestamp is an integer count of local wall-clock minutes.
 */
module Events {
  import opened Common

  type EventId = string

  /** Booking defaults of the booking manager. */
  const DefaultDuration: int := 60
  const ReminderMinutes: nat := 15
  const BufferMinutes: int := 15

  /** Both slot generators advance their cursor by half an hour. */
  const SlotStep: int := 30
  const MinutesPerHour: int := 60
  const MinutesPerDay: int := 1440

  const StatusConfirmed: string := "confirmed"
  const StatusCancelled: string := "cancelled"
  const CancelledPrefix: string := "[CANCELLED] "

  datatype CustomerInfo = CustomerInfo(name: string, email: string, phone: string)

  /** The calendar's free-form `custom` object; `None` is an absent key. */
  datatype Custom = Custom(
    customerName: Option<string>,
    customerEmail: Option<string>,
    customerPhone: Option<string>,
    bookingStatus: Option<string>,
    cancellationReason: Option<string>,
    originalTime: Option<int>)

  const EmptyCustom: Custom := Custom(None, None, None, None, None, None)

  /** One calendar event; `[start, end)` is its occupied interval. */
  datatype Event = Event(
    id: EventId,
    subcalendarIds: seq<nat>,
    start: int,
    end: int,
    title: string,
    notes: string,
    location: string,
    reminder: Option<nat>,
    custom: Custom)

  /** A booking counts as cancelled only when its status is exactly "cancelled". */
  predicate IsCancelled(e: Event) {
    e.custom.bookingStatus == Some(StatusCancelled)
  }

  /** Half-open intervals `[aStart, aEnd)` and `[bStart, bEnd)` share a minute. */
  predicate Overlaps(aStart: int, aEnd: int, bStart: int, bEnd: int) {
    aStart < bEnd && aEnd > bStart
  }

  /** A bookable slot `[start, end)` of `duration` minutes. */
  datatype Slot = Slot(start: int, end: int, duration: int)

  function StartSet(slots: seq<Slot>): set<int> {
    set s | s in slots :: s.start
  }

  predicate StrictlyAscending(slots: seq<Slot>) {
    forall i, j :: 0 <= i < j < |slots| ==> slots[i].start < slots[j].start
  }

  /** `t` is a cursor position of a walk that starts at `from` and steps by `SlotStep`. */
  predicate OnGrid(from: int, t: int) {
    from <= t && (t - from) % SlotStep == 0
  }

  /** Grid positions from `cursor` other than `cursor` itself are the grid positions from the next step. */
  lemma GridStep(cursor: int, t: int)
    ensures (OnGrid(cursor, t) && t != cursor) <==> OnGrid(cursor + SlotStep, t)
  {
  }
}
