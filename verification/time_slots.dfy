/**
 * The booking manager's slot generator: a cursor walks the working day in
 * half-hour steps, keeps a slot only when it ends by the end of the day, and
 * rejects it when it overlaps an existing event widened by the buffer on both
 * sides. The candidate itself is never widened.
 */
module TimeSlots {
  import opened Common
  import opened Events

  /** Working hours as whole hours of the day, `{start, end}`. */
  datatype WorkingHours = WorkingHours(start: int, end: int)

  const DefaultHours: WorkingHours := WorkingHours(9, 17)

  function DayStart(day: int, hours: WorkingHours): int { day + hours.start * MinutesPerHour }
  function DayEnd(day: int, hours: WorkingHours): int { day + hours.end * MinutesPerHour }

  /** Event `e`, widened by the buffer on both sides, overlaps `[cursor, slotEnd)`. */
  predicate BufferedClash(e: Event, cursor: int, slotEnd: int) {
    Overlaps(cursor, slotEnd, e.start - BufferMinutes, e.end + BufferMinutes)
  }

  /** `events.some(...)` with the buffered test. */
  predicate AnyBufferedClash(events: seq<Event>, cursor: int, slotEnd: int)
    ensures AnyBufferedClash(events, cursor, slotEnd) <==>
      exists i :: 0 <= i < |events| && BufferedClash(events[i], cursor, slotEnd)
  {
    if events == [] then false
    else
      assert forall i :: 0 < i < |events| ==> events[i] == events[1..][i - 1];
      BufferedClash(events[0], cursor, slotEnd) || AnyBufferedClash(events[1..], cursor, slotEnd)
  }

  /** A slot the generator may emit when its walk starts at `from`. */
  predicate WithinDay(s: Slot, from: int, dayEnd: int, slotDuration: int) {
    && OnGrid(from, s.start)
    && s.start < dayEnd
    && s.end == s.start + slotDuration <= dayEnd
    && s.duration == slotDuration
  }

  /** The candidate starting at `t` is kept: on the grid from `from`, before `dayEnd`, fits, and is free. */
  predicate Emitted(events: seq<Event>, from: int, dayEnd: int, slotDuration: int, t: int) {
    && OnGrid(from, t)
    && t < dayEnd
    && t + slotDuration <= dayEnd
    && !AnyBufferedClash(events, t, t + slotDuration)
  }

  /** The slots the loop emits from cursor position `cursor` on. */
  function SlotsFrom(events: seq<Event>, cursor: int, dayEnd: int, slotDuration: int): (r: seq<Slot>)
    ensures forall i :: 0 <= i < |r| ==> WithinDay(r[i], cursor, dayEnd, slotDuration)
    ensures StrictlyAscending(r)
    decreases dayEnd - cursor
  {
    if cursor >= dayEnd then []
    else
      var slotEnd := cursor + slotDuration;
      var rest := SlotsFrom(events, cursor + SlotStep, dayEnd, slotDuration);
      assert forall i :: 0 <= i < |rest| ==> WithinDay(rest[i], cursor, dayEnd, slotDuration) && cursor < rest[i].start by {
        forall i | 0 <= i < |rest| ensures WithinDay(rest[i], cursor, dayEnd, slotDuration) && cursor < rest[i].start {
          GridStep(cursor, rest[i].start);
        }
      }
      if slotEnd <= dayEnd && !AnyBufferedClash(events, cursor, slotEnd) then [Slot(cursor, slotEnd, slotDuration)] + rest
      else rest
  }

  /** `getAvailableTimeSlots` over the events fetched for the day starting at minute `day`. */
  function GetAvailableTimeSlots(events: seq<Event>, day: int, slotDuration: Option<int>, workingHours: Option<WorkingHours>): (r: seq<Slot>)
    ensures var hours := workingHours.GetOr(DefaultHours);
      forall i :: 0 <= i < |r| ==>
        && DayStart(day, hours) <= r[i].start < DayEnd(day, hours)
        && r[i].end <= DayEnd(day, hours)
        && r[i].duration == slotDuration.GetOr(DefaultDuration)
        && r[i].end == r[i].start + r[i].duration
        && OnGrid(DayStart(day, hours), r[i].start)
    ensures StrictlyAscending(r)
  {
    var hours := workingHours.GetOr(DefaultHours);
    SlotsFrom(events, DayStart(day, hours), DayEnd(day, hours), slotDuration.GetOr(DefaultDuration))
  }

  /** The same generator as the source's `while` loop, accumulating slots in order. */
  method ComputeTimeSlots(events: seq<Event>, dayStart: int, dayEnd: int, slotDuration: int) returns (slots: seq<Slot>)
    ensures slots == SlotsFrom(events, dayStart, dayEnd, slotDuration)
  {
    slots := [];
    var currentTime := dayStart;
    while currentTime < dayEnd
      invariant slots + SlotsFrom(events, currentTime, dayEnd, slotDuration) == SlotsFrom(events, dayStart, dayEnd, slotDuration)
      decreases dayEnd - currentTime
    {
      var slotEnd := currentTime + slotDuration;
      ghost var rest := SlotsFrom(events, currentTime + SlotStep, dayEnd, slotDuration);
      if slotEnd <= dayEnd {
        var isAvailable := !AnyBufferedClash(events, currentTime, slotEnd);
        if isAvailable {
          assert SlotsFrom(events, currentTime, dayEnd, slotDuration) == [Slot(currentTime, slotEnd, slotDuration)] + rest;
          slots := slots + [Slot(currentTime, slotEnd, slotDuration)];
        }
      }
      currentTime := currentTime + SlotStep;
    }
  }

  /** A start is emitted exactly when it lies on the grid inside the day, fits, and is free. */
  lemma {:induction false} SlotsFromMembership(events: seq<Event>, cursor: int, dayEnd: int, slotDuration: int, t: int)
    ensures t in StartSet(SlotsFrom(events, cursor, dayEnd, slotDuration)) <==> Emitted(events, cursor, dayEnd, slotDuration, t)
    decreases dayEnd - cursor
  {
    if cursor < dayEnd {
      var r := SlotsFrom(events, cursor, dayEnd, slotDuration);
      var rest := SlotsFrom(events, cursor + SlotStep, dayEnd, slotDuration);
      SlotsFromMembership(events, cursor + SlotStep, dayEnd, slotDuration, t);
      GridStep(cursor, t);
      if cursor + slotDuration <= dayEnd && !AnyBufferedClash(events, cursor, cursor + slotDuration) {
        assert r == [Slot(cursor, cursor + slotDuration, slotDuration)] + rest;
        assert StartSet(r) == {cursor} + StartSet(rest);
      } else {
        assert r == rest;
      }
    }
  }

  /**
   * The public entry point emits `t` iff `t` is a half-hour step from the
   * start of the working day, the slot ends by its end, and no event widened
   * by the buffer overlaps the slot.
   */
  lemma TimeSlotMembership(events: seq<Event>, day: int, slotDuration: Option<int>, workingHours: Option<WorkingHours>, t: int)
    ensures var hours := workingHours.GetOr(DefaultHours);
      var d := slotDuration.GetOr(DefaultDuration);
      t in StartSet(GetAvailableTimeSlots(events, day, slotDuration, workingHours)) <==>
        && OnGrid(DayStart(day, hours), t)
        && t + d <= DayEnd(day, hours)
        && t < DayEnd(day, hours)
        && forall i :: 0 <= i < |events| ==>
             !(t < events[i].end + BufferMinutes && t + d > events[i].start - BufferMinutes)
  {
    var hours := workingHours.GetOr(DefaultHours);
    SlotsFromMembership(events, DayStart(day, hours), DayEnd(day, hours), slotDuration.GetOr(DefaultDuration), t);
  }

  /** No cursor whose slot already overruns the day can emit anything. */
  lemma {:induction false} OverrunYieldsNothing(events: seq<Event>, cursor: int, dayEnd: int, slotDuration: int)
    requires cursor + slotDuration > dayEnd
    ensures SlotsFrom(events, cursor, dayEnd, slotDuration) == []
    decreases dayEnd - cursor
  {
    if cursor < dayEnd {
      OverrunYieldsNothing(events, cursor + SlotStep, dayEnd, slotDuration);
    }
  }

  /** A slot longer than the working day yields no slots at all. */
  lemma TooLongYieldsNothing(events: seq<Event>, day: int, slotDuration: int, hours: WorkingHours)
    requires slotDuration > DayEnd(day, hours) - DayStart(day, hours)
    ensures GetAvailableTimeSlots(events, day, Some(slotDuration), Some(hours)) == []
  {
    OverrunYieldsNothing(events, DayStart(day, hours), DayEnd(day, hours), slotDuration);
  }

  /**
   * Only the event is widened: a slot that ends exactly where the widened
   * event begins, or begins exactly where it ends, is emitted; one minute
   * more of overlap is not.
   */
  lemma BufferWidensOnlyTheEvent(e: Event, cursor: int, dayEnd: int, slotDuration: int, t: int)
    requires OnGrid(cursor, t) && t + slotDuration <= dayEnd
    requires e.start < e.end && slotDuration > 0
    ensures t + slotDuration == e.start - BufferMinutes ==> t in StartSet(SlotsFrom([e], cursor, dayEnd, slotDuration))
    ensures t == e.end + BufferMinutes ==> t in StartSet(SlotsFrom([e], cursor, dayEnd, slotDuration))
    ensures t + slotDuration == e.start - BufferMinutes + 1 ==> t !in StartSet(SlotsFrom([e], cursor, dayEnd, slotDuration))
    ensures t == e.end + BufferMinutes - 1 ==> t !in StartSet(SlotsFrom([e], cursor, dayEnd, slotDuration))
  {
    SlotsFromMembership([e], cursor, dayEnd, slotDuration, t);
  }

  /** The day of the worked example: one booking 10:00-11:00 on day 0. */
  const ExampleEvents: seq<Event> := [Event("b", [1], 600, 660, "Cut", "", "", None, EmptyCustom)]

  /**
   * Working day 09:00-15:00, 60-minute slots, one event 10:00-11:00: the
   * widened event [09:45, 11:15) blocks every start from 09:00 to 11:00,
   * 11:15 is off the half-hour grid, and the slots offered are exactly the
   * hours starting 11:30 to 14:00.
   */
  lemma WorkedExample()
    ensures GetAvailableTimeSlots(ExampleEvents, 0, Some(60), Some(WorkingHours(9, 15))) == [
      Slot(690, 750, 60), Slot(720, 780, 60), Slot(750, 810, 60),
      Slot(780, 840, 60), Slot(810, 870, 60), Slot(840, 900, 60)]
  {
    ExampleBlockedMorning();
    ExampleFreeAfternoon();
  }

  /** From 09:00 up to 11:00 every start clashes with the widened booking. */
  lemma ExampleBlockedMorning()
    ensures SlotsFrom(ExampleEvents, 540, 900, 60) == SlotsFrom(ExampleEvents, 690, 900, 60)
  {
    var ev := ExampleEvents;
    assert SlotsFrom(ev, 660, 900, 60) == SlotsFrom(ev, 690, 900, 60);
    assert SlotsFrom(ev, 630, 900, 60) == SlotsFrom(ev, 660, 900, 60);
    assert SlotsFrom(ev, 600, 900, 60) == SlotsFrom(ev, 630, 900, 60);
    assert SlotsFrom(ev, 570, 900, 60) == SlotsFrom(ev, 600, 900, 60);
  }

  /** From 11:30 every start is free, up to 14:00, the last that fits before 15:00. */
  lemma ExampleFreeAfternoon()
    ensures SlotsFrom(ExampleEvents, 690, 900, 60) == [
      Slot(690, 750, 60), Slot(720, 780, 60), Slot(750, 810, 60),
      Slot(780, 840, 60), Slot(810, 870, 60), Slot(840, 900, 60)]
  {
    var ev := ExampleEvents;
    assert SlotsFrom(ev, 900, 900, 60) == [];
    assert SlotsFrom(ev, 870, 900, 60) == [];
    assert SlotsFrom(ev, 840, 900, 60) == [Slot(840, 900, 60)];
    assert SlotsFrom(ev, 810, 900, 60) == [Slot(810, 870, 60)] + SlotsFrom(ev, 840, 900, 60);
    assert SlotsFrom(ev, 780, 900, 60) == [Slot(780, 840, 60)] + SlotsFrom(ev, 810, 900, 60);
    assert SlotsFrom(ev, 750, 900, 60) == [Slot(750, 810, 60)] + SlotsFrom(ev, 780, 900, 60);
    assert SlotsFrom(ev, 720, 900, 60) == [Slot(720, 780, 60)] + SlotsFrom(ev, 750, 900, 60);
    assert SlotsFrom(ev, 690, 900, 60) == [Slot(690, 750, 60)] + SlotsFrom(ev, 720, 900, 60);
  }
}
