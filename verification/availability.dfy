/**
 * The booking manager's conflict check: a candidate `[start, start + duration)`
 * against the events the calendar returned, with half-open overlap and an
 * optional event id that is left out of the test.
 */
module Availability {
  import opened Common
  import opened Events

  /** The exclusion applies only when the id is truthy, i.e. present and non-empty. */
  predicate Skipped(e: Event, exclude: Option<EventId>) {
    exclude.Some? && exclude.value != "" && e.id == exclude.value
  }

  predicate ConflictsWith(e: Event, start: int, duration: int, exclude: Option<EventId>) {
    !Skipped(e, exclude) && Overlaps(start, start + duration, e.start, e.end)
  }

  /** The `events.filter(...)` step: exactly the events that conflict, in order. */
  function Conflicts(events: seq<Event>, start: int, duration: int, exclude: Option<EventId>): (r: seq<Event>)
    ensures |r| <= |events|
    ensures forall e :: e in r <==> e in events && ConflictsWith(e, start, duration, exclude)
  {
    if events == [] then []
    else
      var rest := Conflicts(events[1..], start, duration, exclude);
      if ConflictsWith(events[0], start, duration, exclude) then [events[0]] + rest else rest
  }

  /** `checkAvailability`: true iff the conflict list is empty. Cancelled events are not skipped. */
  function CheckAvailability(events: seq<Event>, start: int, duration: int, exclude: Option<EventId>): (available: bool)
    ensures available <==>
      forall i :: 0 <= i < |events| ==>
        Skipped(events[i], exclude) || !(start < events[i].end && start + duration > events[i].start)
  {
    var r := Conflicts(events, start, duration, exclude);
    if |r| == 0 then
      assert forall i :: 0 <= i < |events| ==> events[i] in events;
      true
    else
      assert r[0] in r;
      false
  }

  /** The excluded event never decides the answer. */
  lemma ExcludedEventIgnored(events: seq<Event>, e: Event, start: int, duration: int, x: EventId)
    requires x != "" && e.id == x
    ensures CheckAvailability(events + [e], start, duration, Some(x)) == CheckAvailability(events, start, duration, Some(x))
    ensures CheckAvailability([e] + events, start, duration, Some(x)) == CheckAvailability(events, start, duration, Some(x))
  {
    assert CheckAvailability([e], start, duration, Some(x));
    AvailabilityOfConcat(events, [e], start, duration, Some(x));
    AvailabilityOfConcat([e], events, start, duration, Some(x));
  }

  /** A falsy exclusion id (absent or empty) considers every event. */
  lemma FalsyExclusionConsidersAll(events: seq<Event>, i: int, start: int, duration: int, exclude: Option<EventId>)
    requires exclude == None || exclude == Some("")
    requires 0 <= i < |events| && Overlaps(start, start + duration, events[i].start, events[i].end)
    ensures !CheckAvailability(events, start, duration, exclude)
  {
  }

  /** Events that end where the candidate starts, or start where it ends, never conflict. */
  lemma TouchingNeverConflicts(events: seq<Event>, start: int, duration: int, exclude: Option<EventId>)
    requires forall i :: 0 <= i < |events| ==> events[i].end <= start || events[i].start >= start + duration
    ensures CheckAvailability(events, start, duration, exclude)
  {
  }

  /** Checking two fetched batches together is checking each of them. */
  lemma {:induction false} AvailabilityOfConcat(a: seq<Event>, b: seq<Event>, start: int, duration: int, exclude: Option<EventId>)
    ensures CheckAvailability(a + b, start, duration, exclude) <==>
      CheckAvailability(a, start, duration, exclude) && CheckAvailability(b, start, duration, exclude)
  {
    var ab := a + b;
    assert forall i :: 0 <= i < |a| ==> ab[i] == a[i];
    assert forall i :: 0 <= i < |b| ==> ab[|a| + i] == b[i];
    if CheckAvailability(a, start, duration, exclude) && CheckAvailability(b, start, duration, exclude) {
      forall i | 0 <= i < |ab|
        ensures Skipped(ab[i], exclude) || !ConflictsWith(ab[i], start, duration, exclude)
      {
        if i >= |a| {
          assert ab[i] == b[i - |a|];
        }
      }
    }
  }
}
