/**
 * Booking record transforms of the booking manager over an abstract event
 * store: the external calendar seen as a map from event id to event. Each
 * operation answers with the store as it stands afterwards and a result.
 */
module Lifecycle {
  import opened Common
  import opened Events
  import opened Availability
  import Notes

  type Store = map<EventId, Event>

  datatype Reply = Reply(store: Store, result: Result<Event>)

  /** Every stored event is filed under its own id. */
  predicate WellFormed(store: Store) {
    forall id :: id in store ==> store[id].id == id
  }

  /** A create request; falsy fields are "", 0 or None. */
  datatype BookingRequest = BookingRequest(
    title: string,
    subcalendarId: nat,
    startTime: Option<int>,
    duration: Option<int>,
    customerInfo: Option<CustomerInfo>,
    notes: string,
    location: string,
    reminder: Option<bool>)

  /** An update payload; `None` is a field the caller left out. */
  datatype Patch = Patch(
    title: Option<string>,
    notes: Option<string>,
    location: Option<string>,
    startTime: Option<int>,
    duration: Option<int>,
    customerInfo: Option<CustomerInfo>)

  predicate HasRequiredFields(req: BookingRequest) {
    req.title != "" && req.subcalendarId != 0 && req.startTime.Some?
  }

  /** `requested || existing length`: a missing or zero duration keeps the event's length. */
  function KeptDuration(requested: Option<int>, e: Event): int {
    if requested.Some? && requested.value != 0 then requested.value else e.end - e.start
  }

  function CustomerFields(prior: Custom, ci: CustomerInfo): Custom {
    prior.(customerName := Some(ci.name), customerEmail := Some(ci.email), customerPhone := Some(ci.phone))
  }

  /**
   * `createBooking`: validates the three required fields, defaults the duration
   * to 60 only when it is absent, and writes the event under the id the
   * calendar assigns. No availability check is made.
   */
  function CreateBooking(store: Store, newId: EventId, req: BookingRequest): (r: Reply)
    requires newId !in store
    ensures r.result.Ok? <==> HasRequiredFields(req)
    ensures r.result.Err? ==> r.result.error == ValidationError && r.store == store
    ensures r.result.Ok? ==>
      var e := r.result.value;
      && r.store == store[newId := e]
      && e.id == newId
      && e.subcalendarIds == [req.subcalendarId]
      && e.title == req.title
      && e.start == req.startTime.value
      && (req.duration.None? ==> e.end == e.start + DefaultDuration)
      && (req.duration.Some? ==> e.end == e.start + req.duration.value)
      && e.notes == Notes.FormatNotes(req.customerInfo, req.notes)
      && (req.customerInfo.Some? <==> e.custom.bookingStatus == Some(StatusConfirmed))
      && e.custom.cancellationReason.None? && e.custom.originalTime.None?
      && e.location == req.location
      && e.reminder == (if req.reminder == Some(false) then None else Some(ReminderMinutes))
      && (req.customerInfo.None? ==> e.custom == EmptyCustom)
      && (req.customerInfo.Some? ==>
            && e.custom.customerName == Some(req.customerInfo.value.name)
            && e.custom.customerEmail == Some(req.customerInfo.value.email)
            && e.custom.customerPhone == Some(req.customerInfo.value.phone))
    ensures WellFormed(store) ==> WellFormed(r.store)
  {
    if !HasRequiredFields(req) then
      Reply(store, Err(ValidationError))
    else
      var start := req.startTime.value;
      var end := start + req.duration.GetOr(DefaultDuration);
      var custom := match req.customerInfo
        case Some(ci) => CustomerFields(EmptyCustom, ci).(bookingStatus := Some(StatusConfirmed))
        case None => EmptyCustom;
      var e := Event(
        newId, [req.subcalendarId], start, end, req.title,
        Notes.FormatNotes(req.customerInfo, req.notes), req.location,
        if req.reminder.GetOr(true) then Some(ReminderMinutes) else None,
        custom);
      Reply(store[newId := e], Ok(e))
  }

  /**
   * `updateBooking`: merges the supplied fields into the stored event. The
   * interval moves only when a start time is supplied, and then keeps the prior
   * length unless a non-zero duration is given. No availability check is made.
   */
  function UpdateBooking(store: Store, id: EventId, patch: Patch): (r: Reply)
    ensures r.result.Err? <==> id !in store
    ensures r.result.Err? ==> r.result.error == NotFound && r.store == store
    ensures r.result.Ok? ==>
      var prior := store[id];
      var e := r.result.value;
      && r.store == store[id := e]
      && e.id == prior.id && e.subcalendarIds == prior.subcalendarIds && e.reminder == prior.reminder
      && e.title == patch.title.GetOr(prior.title)
      && e.location == patch.location.GetOr(prior.location)
      && (patch.startTime.None? ==> e.start == prior.start && e.end == prior.end)
      && (patch.startTime.Some? ==> e.start == patch.startTime.value)
      && (patch.startTime.Some? && (patch.duration.None? || patch.duration.value == 0) ==>
            e.end - e.start == prior.end - prior.start)
      && (patch.startTime.Some? && patch.duration.Some? && patch.duration.value != 0 ==>
            e.end - e.start == patch.duration.value)
      && (patch.customerInfo.None? ==> e.custom == prior.custom && e.notes == patch.notes.GetOr(prior.notes))
      && (patch.customerInfo.Some? ==>
            && e.custom.customerName == Some(patch.customerInfo.value.name)
            && e.custom.customerEmail == Some(patch.customerInfo.value.email)
            && e.custom.customerPhone == Some(patch.customerInfo.value.phone)
            && (patch.notes.Some? && patch.notes.value != "" ==>
                  e.notes == Notes.FormatNotes(patch.customerInfo, patch.notes.value))
            && (patch.notes.None? || patch.notes.value == "" ==>
                  e.notes == Notes.FormatNotes(patch.customerInfo, prior.notes))
            && e.custom.bookingStatus == prior.custom.bookingStatus
            && e.custom.cancellationReason == prior.custom.cancellationReason
            && e.custom.originalTime == prior.custom.originalTime)
    ensures WellFormed(store) ==> WellFormed(r.store)
  {
    if id !in store then Reply(store, Err(NotFound))
    else
      var prior := store[id];
      var merged := prior.(
        title := patch.title.GetOr(prior.title),
        notes := patch.notes.GetOr(prior.notes),
        location := patch.location.GetOr(prior.location));
      var timed := match patch.startTime
        case Some(s) => merged.(start := s, end := s + KeptDuration(patch.duration, prior))
        case None => merged;
      var e := match patch.customerInfo
        case Some(ci) =>
          var additional := if patch.notes.Some? && patch.notes.value != "" then patch.notes.value else prior.notes;
          timed.(custom := CustomerFields(prior.custom, ci), notes := Notes.FormatNotes(Some(ci), additional))
        case None => timed;
      Reply(store[id := e], Ok(e))
  }

  /**
   * `cancelBooking`: a soft cancel. The event stays in the store; its title
   * gains the "[CANCELLED] " prefix and its custom fields record the status
   * and the reason. Nothing else changes.
   */
  function CancelBooking(store: Store, id: EventId, reason: string): (r: Reply)
    ensures r.result.Err? <==> id !in store
    ensures r.result.Err? ==> r.result.error == NotFound && r.store == store
    ensures r.result.Ok? ==>
      var prior := store[id];
      var e := r.result.value;
      && r.store == store[id := e]
      && r.store.Keys == store.Keys
      && e.title == CancelledPrefix + prior.title
      && IsCancelled(e)
      && e.custom.cancellationReason == Some(reason)
      && e.(title := prior.title, custom := prior.custom) == prior
      && e.custom.(bookingStatus := prior.custom.bookingStatus, cancellationReason := prior.custom.cancellationReason) == prior.custom
    ensures WellFormed(store) ==> WellFormed(r.store)
  {
    if id !in store then Reply(store, Err(NotFound))
    else
      var prior := store[id];
      var e := prior.(
        title := CancelledPrefix + prior.title,
        custom := prior.custom.(bookingStatus := Some(StatusCancelled), cancellationReason := Some(reason)));
      Reply(store[id := e], Ok(e))
  }

  /**
   * `rescheduleBooking`: checks the new interval against the fetched events,
   * leaving the booking's own id out, and writes only when it is free.
   * `fetched` is what the calendar returned for the booking's subcalendar.
   */
  function RescheduleBooking(store: Store, id: EventId, newStart: int, newDuration: Option<int>, fetched: seq<Event>): (r: Reply)
    ensures id !in store ==> r == Reply(store, Err(NotFound))
    ensures id in store ==>
      var prior := store[id];
      var d := KeptDuration(newDuration, prior);
      && (r.result.Ok? <==> CheckAvailability(fetched, newStart, d, Some(id)))
      && (r.result.Err? ==> r.result.error == SlotUnavailable && r.store == store)
      && (r.result.Ok? ==>
            var e := r.result.value;
            && r.store == store[id := e]
            && e.start == newStart
            && e.end == newStart + d
            && e.custom.originalTime == Some(prior.start)
            && e.(start := prior.start, end := prior.end, custom := prior.custom) == prior
            && e.custom.(originalTime := prior.custom.originalTime) == prior.custom)
    ensures WellFormed(store) ==> WellFormed(r.store)
  {
    if id !in store then Reply(store, Err(NotFound))
    else
      var prior := store[id];
      var duration := KeptDuration(newDuration, prior);
      if !CheckAvailability(fetched, newStart, duration, Some(id)) then Reply(store, Err(SlotUnavailable))
      else
        var e := prior.(
          start := newStart,
          end := newStart + duration,
          custom := prior.custom.(originalTime := Some(prior.start)));
        Reply(store[id := e], Ok(e))
  }

  /** A slot taken by another event that the calendar reports makes the reschedule fail and leaves the store alone. */
  lemma RescheduleOntoOtherBookingFails(store: Store, id: EventId, newStart: int, newDuration: Option<int>, fetched: seq<Event>, i: int)
    requires id in store
    requires 0 <= i < |fetched| && fetched[i].id != id
    requires Overlaps(newStart, newStart + KeptDuration(newDuration, store[id]), fetched[i].start, fetched[i].end)
    ensures RescheduleBooking(store, id, newStart, newDuration, fetched) == Reply(store, Err(SlotUnavailable))
  {
  }

  /** The booking never blocks its own move, as long as its id is truthy. */
  lemma RescheduleIgnoresItself(store: Store, id: EventId, newStart: int, newDuration: Option<int>, fetched: seq<Event>)
    requires id in store && id != ""
    requires forall i :: 0 <= i < |fetched| ==>
      fetched[i].id == id || !Overlaps(newStart, newStart + KeptDuration(newDuration, store[id]), fetched[i].start, fetched[i].end)
    ensures RescheduleBooking(store, id, newStart, newDuration, fetched).result.Ok?
  {
  }

  /** Moving a booking and moving it back restores its interval. */
  lemma RescheduleThereAndBack(store: Store, id: EventId, newStart: int, fetched1: seq<Event>, fetched2: seq<Event>)
    requires id in store
    requires RescheduleBooking(store, id, newStart, None, fetched1).result.Ok?
    ensures var mid := RescheduleBooking(store, id, newStart, None, fetched1).store;
      var back := RescheduleBooking(mid, id, store[id].start, None, fetched2);
      back.result.Ok? ==>
        && back.result.value.start == store[id].start
        && back.result.value.end == store[id].end
        && back.result.value.custom.originalTime == Some(newStart)
  {
  }

  /** A cancelled booking still blocks its former interval: conflict checks do not look at the status. */
  lemma CancelledBookingStillBlocks(store: Store, id: EventId, reason: string, others: seq<Event>)
    requires id in store && store[id].start < store[id].end
    ensures var e := CancelBooking(store, id, reason).result.value;
      IsCancelled(e) && !CheckAvailability(others + [e], e.start, e.end - e.start, None)
  {
    var e := CancelBooking(store, id, reason).result.value;
    assert (others + [e])[|others|] == e;
  }

  /** Cancelling twice stacks the prefix; the cancel is not idempotent. */
  lemma CancelTwiceStacksPrefix(store: Store, id: EventId, r1: string, r2: string)
    requires id in store
    ensures var once := CancelBooking(store, id, r1);
      var twice := CancelBooking(once.store, id, r2);
      twice.result.value.title == CancelledPrefix + CancelledPrefix + store[id].title
  {
  }
}
