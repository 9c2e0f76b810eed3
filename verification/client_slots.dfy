/**
 * The calendar client's simpler slot generator: fixed hours 09:00-17:00,
 * half-hour steps, plain half-open overlap against the fetched events, no
 * buffer, and no check that a slot ends by 17:00.
 */
module ClientSlots {
  import opened Common
  import opened Events
  import TimeSlots

  const OpenMinute: int := 9 * MinutesPerHour
  const CloseMinute: int := 17 * MinutesPerHour

  /** Event `e` overlaps `[cursor, slotEnd)` (half-open, no buffer). */
  predicate Clash(e: Event, cursor: int, slotEnd: int) {
    Overlaps(cursor, slotEnd, e.start, e.end)
  }

  /** `events.some(...)` with the plain overlap test. */
  predicate AnyClash(events: seq<Event>, cursor: int, slotEnd: int)
    ensures AnyClash(events, cursor, slotEnd) <==> exists i :: 0 <= i < |events| && Clash(events[i], cursor, slotEnd)
  {
    if events == [] then false
    else
      assert forall i :: 0 < i < |events| ==> events[i] == events[1..][i - 1];
      Clash(events[0], cursor, slotEnd) || AnyClash(events[1..], cursor, slotEnd)
  }

  /** The number of cursor positions from `cursor` (inclusive) up to `endTime` (exclusive). */
  function CandidateCount(cursor: int, endTime: int): nat {
    if cursor >= endTime then 0 else (endTime - cursor + SlotStep - 1) / SlotStep
  }

  /** A slot the generator may emit when its walk starts at `from`: it need not end by `endTime`. */
  predicate StartsInWindow(s: Slot, from: int, endTime: int, duration: int) {
    && OnGrid(from, s.start)
    && s.start < endTime
    && s.end == s.start + duration
    && s.duration == duration
  }

  predicate Emitted(events: seq<Event>, from: int, endTime: int, duration: int, t: int) {
    && OnGrid(from, t)
    && t < endTime
    && !AnyClash(events, t, t + duration)
  }

  function SlotsFrom(events: seq<Event>, cursor: int, endTime: int, duration: int): (r: seq<Slot>)
    ensures |r| <= CandidateCount(cursor, endTime)
    ensures forall i :: 0 <= i < |r| ==> StartsInWindow(r[i], cursor, endTime, duration)
    ensures StrictlyAscending(r)
    decreases endTime - cursor
  {
    if cursor >= endTime then []
    else
      var slotEnd := cursor + duration;
      var rest := SlotsFrom(events, cursor + SlotStep, endTime, duration);
      assert forall i :: 0 <= i < |rest| ==> StartsInWindow(rest[i], cursor, endTime, duration) && cursor < rest[i].start by {
        forall i | 0 <= i < |rest| ensures StartsInWindow(rest[i], cursor, endTime, duration) && cursor < rest[i].start {
          GridStep(cursor, rest[i].start);
        }
      }
      if !AnyClash(events, cursor, slotEnd) then [Slot(cursor, slotEnd, duration)] + rest else rest
  }

  /** `getAvailableSlots` for the day whose local midnight is minute `day`; duration defaults to 60. */
  function GetAvailableSlots(events: seq<Event>, day: int, duration: Option<int>): (r: seq<Slot>)
    ensures |r| <= 16
    ensures forall i :: 0 <= i < |r| ==>
      && day + OpenMinute <= r[i].start < day + CloseMinute
      && OnGrid(day + OpenMinute, r[i].start)
      && r[i].duration == duration.GetOr(DefaultDuration)
      && r[i].end == r[i].start + r[i].duration
    ensures StrictlyAscending(r)
  {
    SlotsFrom(events, day + OpenMinute, day + CloseMinute, duration.GetOr(DefaultDuration))
  }

  lemma {:induction false} SlotsFromMembership(events: seq<Event>, cursor: int, endTime: int, duration: int, t: int)
    ensures t in StartSet(SlotsFrom(events, cursor, endTime, duration)) <==> Emitted(events, cursor, endTime, duration, t)
    decreases endTime - cursor
  {
    if cursor < endTime {
      var r := SlotsFrom(events, cursor, endTime, duration);
      var rest := SlotsFrom(events, cursor + SlotStep, endTime, duration);
      SlotsFromMembership(events, cursor + SlotStep, endTime, duration, t);
      GridStep(cursor, t);
      if !AnyClash(events, cursor, cursor + duration) {
        assert r == [Slot(cursor, cursor + duration, duration)] + rest;
        assert StartSet(r) == {cursor} + StartSet(rest);
      } else {
        assert r == rest;
      }
    }
  }

  /**
   * The output holds `t` iff `t` is a half-hour step from 09:00 before 17:00
   * and no event overlaps `[t, t + duration)`; touching events do not block.
   */
  lemma SlotMembership(events: seq<Event>, day: int, duration: Option<int>, t: int)
    ensures var d := duration.GetOr(DefaultDuration);
      t in StartSet(GetAvailableSlots(events, day, duration)) <==>
        && OnGrid(day + OpenMinute, t)
        && t < day + CloseMinute
        && forall i :: 0 <= i < |events| ==> !(t < events[i].end && t + d > events[i].start)
  {
    SlotsFromMembership(events, day + OpenMinute, day + CloseMinute, duration.GetOr(DefaultDuration), t);
  }

  /** With nothing booked, every candidate position is offered, in cursor order. */
  lemma {:induction false} EmptyDayOffersEveryCandidate(cursor: int, endTime: int, duration: int)
    ensures var r := SlotsFrom([], cursor, endTime, duration);
      && |r| == CandidateCount(cursor, endTime)
      && forall i :: 0 <= i < |r| ==> r[i] == Slot(cursor + SlotStep * i, cursor + SlotStep * i + duration, duration)
    decreases endTime - cursor
  {
    if cursor < endTime {
      EmptyDayOffersEveryCandidate(cursor + SlotStep, endTime, duration);
      var rest := SlotsFrom([], cursor + SlotStep, endTime, duration);
      var r := SlotsFrom([], cursor, endTime, duration);
      assert r == [Slot(cursor, cursor + duration, duration)] + rest;
      forall i | 1 <= i < |r|
        ensures r[i] == Slot(cursor + SlotStep * i, cursor + SlotStep * i + duration, duration)
      {
        assert r[i] == rest[i - 1];
      }
    }
  }

  /** No end-of-day containment: with no events the 16:30 slot is emitted and ends at 17:30. */
  lemma NoClosingTimeCheck(day: int)
    ensures var r := GetAvailableSlots([], day, None);
      |r| == 16 && r[15] == Slot(day + 990, day + 1050, 60) && r[15].end > day + CloseMinute
  {
    EmptyDayOffersEveryCandidate(day + OpenMinute, day + CloseMinute, 60);
  }

  /** Every slot the buffered generator keeps for 09:00-17:00 is also offered here. */
  lemma BufferedSlotsAreClientSlots(events: seq<Event>, day: int, duration: int, t: int)
    requires t in StartSet(TimeSlots.GetAvailableTimeSlots(events, day, Some(duration), None))
    ensures t in StartSet(GetAvailableSlots(events, day, Some(duration)))
  {
    TimeSlots.TimeSlotMembership(events, day, Some(duration), None, t);
    SlotMembership(events, day, Some(duration), t);
  }
}
