/**
 * Aggregations of the booking manager over a batch of fetched events: the
 * booking report's counts and per-day tally, and the upcoming-bookings filter
 * and sort.
 */
module Reports {
  import opened Common
  import opened Events

  /** `filter(e => e.custom?.booking_status !== 'cancelled')`, order kept. */
  function Active(events: seq<Event>): (r: seq<Event>)
    ensures forall e :: e in r <==> e in events && !IsCancelled(e)
    ensures multiset(r) <= multiset(events)
  {
    if events == [] then []
    else
      var rest := Active(events[1..]);
      assert events == [events[0]] + events[1..];
      if IsCancelled(events[0]) then rest else [events[0]] + rest
  }

  /** `filter(e => e.custom?.booking_status === 'cancelled')`, order kept. */
  function CancelledOnly(events: seq<Event>): (r: seq<Event>)
    ensures forall e :: e in r <==> e in events && IsCancelled(e)
    ensures multiset(r) <= multiset(events)
  {
    if events == [] then []
    else
      var rest := CancelledOnly(events[1..]);
      assert events == [events[0]] + events[1..];
      if IsCancelled(events[0]) then [events[0]] + rest else rest
  }

  /** Every event lands in exactly one of the two filters. */
  lemma {:induction false} PartitionSizes(events: seq<Event>)
    ensures |Active(events)| + |CancelledOnly(events)| == |events|
    ensures multiset(Active(events)) + multiset(CancelledOnly(events)) == multiset(events)
  {
    if events != [] {
      PartitionSizes(events[1..]);
      assert events == [events[0]] + events[1..];
    }
  }

  /** The local calendar day of a minute timestamp, as `format(..., 'yyyy-MM-dd')` keys it. */
  function DayOf(t: int): int { t / MinutesPerDay }

  /** Minutes since local midnight, as `format(..., 'HH:mm')` shows it. */
  function TimeOfDay(t: int): int { t % MinutesPerDay }

  /** How many events start on day `d`. */
  function DayCount(events: seq<Event>, d: int): nat
    ensures DayCount(events, d) <= |events|
  {
    if events == [] then 0
    else DayCount(events[..|events| - 1], d) + (if DayOf(events[|events| - 1].start) == d then 1 else 0)
  }

  /** The `forEach` that builds `bookingsByDay`, one increment per event in order. */
  function TallyDays(events: seq<Event>): (m: map<int, nat>)
    ensures forall d :: d in m <==> DayCount(events, d) > 0
    ensures forall d :: d in m ==> m[d] == DayCount(events, d)
  {
    if events == [] then map[]
    else
      var m := TallyDays(events[..|events| - 1]);
      var d := DayOf(events[|events| - 1].start);
      m[d := (if d in m then m[d] else 0) + 1]
  }

  predicate NoDuplicates(ds: seq<int>) {
    forall i, j :: 0 <= i < j < |ds| ==> ds[i] != ds[j]
  }

  /** The days that occur, each once, in order of first appearance: the report's key order. */
  function DaysSeen(events: seq<Event>): (ds: seq<int>)
    ensures forall d :: d in ds <==> DayCount(events, d) > 0
    ensures NoDuplicates(ds)
  {
    if events == [] then []
    else
      var ds := DaysSeen(events[..|events| - 1]);
      var d := DayOf(events[|events| - 1].start);
      if d in ds then ds else ds + [d]
  }

  /** Some event of `events` starts on day `d`. */
  lemma {:induction false} DayOccurs(events: seq<Event>, d: int)
    requires DayCount(events, d) > 0
    ensures exists k :: 0 <= k < |events| && DayOf(events[k].start) == d
  {
    var last := |events| - 1;
    if DayOf(events[last].start) != d {
      var prefix := events[..last];
      DayOccurs(prefix, d);
      var k :| 0 <= k < |prefix| && DayOf(prefix[k].start) == d;
      assert events[k] == prefix[k];
    }
  }

  /** Some event before position `k` starts on day `d`. */
  predicate StartsEarlierOn(events: seq<Event>, k: int, d: int) {
    exists k' :: 0 <= k' < k && k' < |events| && DayOf(events[k'].start) == d
  }

  /** Every event on a later-listed day is preceded by some event on each earlier-listed day. */
  predicate InFirstAppearanceOrder(events: seq<Event>, ds: seq<int>) {
    forall i, j, k :: 0 <= i < j < |ds| && 0 <= k < |events| && DayOf(events[k].start) == ds[j] ==>
      StartsEarlierOn(events, k, ds[i])
  }

  /** `DaysSeen` lists the days in the order in which they first appear. */
  lemma {:induction false} DaysSeenInFirstAppearanceOrder(events: seq<Event>)
    ensures InFirstAppearanceOrder(events, DaysSeen(events))
  {
    if events != [] {
      var last := |events| - 1;
      var prefix := events[..last];
      var pds := DaysSeen(prefix);
      var ds := DaysSeen(events);
      DaysSeenInFirstAppearanceOrder(prefix);
      forall i, j, k | 0 <= i < j < |ds| && 0 <= k < |events| && DayOf(events[k].start) == ds[j]
        ensures StartsEarlierOn(events, k, ds[i])
      {
        assert ds[i] == pds[i];
        if k < last {
          assert prefix[k] == events[k];
          if j == |pds| {
            DayCountPositive(prefix, k);
            assert false;
          }
          assert StartsEarlierOn(prefix, k, pds[i]);
          var k' :| 0 <= k' < k && k' < |prefix| && DayOf(prefix[k'].start) == pds[i];
          assert events[k'] == prefix[k'];
        } else {
          DayOccurs(prefix, ds[i]);
          var k' :| 0 <= k' < |prefix| && DayOf(prefix[k'].start) == ds[i];
          assert events[k'] == prefix[k'];
        }
      }
    }
  }

  /** The sum of the counts `m` holds for the days `ds`. */
  function SumAt(m: map<int, nat>, ds: seq<int>): nat {
    if ds == [] then 0
    else SumAt(m, ds[..|ds| - 1]) + (if ds[|ds| - 1] in m then m[ds[|ds| - 1]] else 0)
  }

  lemma {:induction false} SumAtUpdateOther(m: map<int, nat>, ds: seq<int>, d: int, v: nat)
    requires d !in ds
    ensures SumAt(m[d := v], ds) == SumAt(m, ds)
  {
    if ds != [] {
      SumAtUpdateOther(m, ds[..|ds| - 1], d, v);
    }
  }

  lemma {:induction false} SumAtIncrement(m: map<int, nat>, ds: seq<int>, d: int)
    requires NoDuplicates(ds) && d in ds
    ensures SumAt(m[d := (if d in m then m[d] else 0) + 1], ds) == SumAt(m, ds) + 1
  {
    var prefix := ds[..|ds| - 1];
    var v := (if d in m then m[d] else 0) + 1;
    if ds[|ds| - 1] == d {
      assert d !in prefix;
      SumAtUpdateOther(m, prefix, d, v);
    } else {
      assert ds == prefix + [ds[|ds| - 1]];
      SumAtIncrement(m, prefix, d);
    }
  }

  /** The per-day counts, summed over the days seen, add up to the number of events. */
  lemma {:induction false} TallySum(events: seq<Event>)
    ensures SumAt(TallyDays(events), DaysSeen(events)) == |events|
  {
    if events != [] {
      var prefix := events[..|events| - 1];
      var m := TallyDays(prefix);
      var ds := DaysSeen(prefix);
      var d := DayOf(events[|events| - 1].start);
      TallySum(prefix);
      if d in ds {
        SumAtIncrement(m, ds, d);
      } else {
        assert d !in m;
        SumAtUpdateOther(m, ds, d, 1);
        assert (ds + [d])[..|ds|] == ds;
      }
    }
  }

  /** `booking_status || 'confirmed'`. */
  function StatusLabel(e: Event): string {
    match e.custom.bookingStatus
    case Some(s) => if s != "" then s else StatusConfirmed
    case None => StatusConfirmed
  }

  datatype ReportEntry = ReportEntry(id: EventId, title: string, day: int, time: int, duration: int, status: string)

  function Entry(e: Event): ReportEntry {
    ReportEntry(e.id, e.title, DayOf(e.start), TimeOfDay(e.start), e.end - e.start, StatusLabel(e))
  }

  /** The booking report; `totalMinutes` replaces the floating-point `totalHours`. */
  datatype Report = Report(
    periodStart: int,
    periodEnd: int,
    totalBookings: nat,
    confirmedBookings: nat,
    cancelledBookings: nat,
    bookingsByDay: map<int, nat>,
    totalMinutes: int,
    bookings: seq<ReportEntry>)

  /** The sum of event lengths that `totalHours` accumulates, in minutes. */
  function TotalMinutes(events: seq<Event>): int {
    if events == [] then 0 else TotalMinutes(events[..|events| - 1]) + (events[|events| - 1].end - events[|events| - 1].start)
  }

  /** The accumulated length splits over any division of the event list. */
  lemma {:induction false} TotalMinutesOfConcat(a: seq<Event>, b: seq<Event>)
    ensures TotalMinutes(a + b) == TotalMinutes(a) + TotalMinutes(b)
  {
    if b != [] {
      var bp := b[..|b| - 1];
      TotalMinutesOfConcat(a, bp);
      assert (a + b)[..|a + b| - 1] == a + bp;
    } else {
      assert a + b == a;
    }
  }

  /** Every event non-negative in length gives a non-negative total, which is at least each one's length. */
  lemma {:induction false} TotalMinutesBounds(events: seq<Event>, i: int)
    requires forall k :: 0 <= k < |events| ==> events[k].start <= events[k].end
    requires 0 <= i < |events|
    ensures events[i].end - events[i].start <= TotalMinutes(events)
  {
    var last := |events| - 1;
    var prefix := events[..last];
    TotalMinutesNonNegative(prefix);
    if i < last {
      assert prefix[i] == events[i];
      TotalMinutesBounds(prefix, i);
    }
  }

  lemma {:induction false} TotalMinutesNonNegative(events: seq<Event>)
    requires forall k :: 0 <= k < |events| ==> events[k].start <= events[k].end
    ensures TotalMinutes(events) >= 0
  {
    if events != [] {
      var prefix := events[..|events| - 1];
      assert forall k :: 0 <= k < |prefix| ==> prefix[k] == events[k];
      TotalMinutesNonNegative(prefix);
    }
  }

  function Entries(events: seq<Event>): (r: seq<ReportEntry>)
    ensures |r| == |events|
    ensures forall i :: 0 <= i < |events| ==> r[i] == Entry(events[i])
  {
    if events == [] then [] else [Entry(events[0])] + Entries(events[1..])
  }

  /** `generateBookingReport` over the events fetched for the period. */
  function GenerateBookingReport(events: seq<Event>, startDate: int, endDate: int): (r: Report)
    ensures r.totalBookings == |events| == |r.bookings|
    ensures r.confirmedBookings == |Active(events)| && r.cancelledBookings == |CancelledOnly(events)|
    ensures r.confirmedBookings + r.cancelledBookings == r.totalBookings
    ensures r.periodStart == startDate && r.periodEnd == endDate
    ensures r.totalMinutes == TotalMinutes(events)
    ensures r.bookings == Entries(events)
    ensures SumAt(r.bookingsByDay, DaysSeen(events)) == r.totalBookings
    ensures forall d :: d in r.bookingsByDay <==> d in DaysSeen(events)
    ensures forall d :: d in r.bookingsByDay ==> r.bookingsByDay[d] == DayCount(events, d) > 0
    ensures forall i :: 0 <= i < |events| ==>
      && r.bookings[i].id == events[i].id
      && DayOf(events[i].start) in r.bookingsByDay
      && (r.bookings[i].status == StatusCancelled <==> IsCancelled(events[i]))
  {
    PartitionSizes(events);
    TallySum(events);
    var m := TallyDays(events);
    EventDaysAreKeys(events);
    Report(
      startDate, endDate, |events|, |Active(events)|, |CancelledOnly(events)|,
      m, TotalMinutes(events), Entries(events))
  }

  /** Every event's day is a key of the tally. */
  lemma EventDaysAreKeys(events: seq<Event>)
    ensures forall i :: 0 <= i < |events| ==> DayOf(events[i].start) in TallyDays(events)
  {
    forall i | 0 <= i < |events| ensures DayOf(events[i].start) in TallyDays(events) {
      DayCountPositive(events, i);
    }
  }

  lemma {:induction false} DayCountPositive(events: seq<Event>, i: int)
    requires 0 <= i < |events|
    ensures DayCount(events, DayOf(events[i].start)) > 0
  {
    var last := |events| - 1;
    if i < last {
      var prefix := events[..last];
      assert prefix[i] == events[i];
      DayCountPositive(prefix, i);
    }
  }

  /** Starts never decrease along the sequence. */
  predicate SortedByStart(s: seq<Event>) {
    forall i, j :: 0 <= i < j < |s| ==> s[i].start <= s[j].start
  }

  /** Inserts `x` before the first event that does not start earlier. */
  function Insert(x: Event, s: seq<Event>): seq<Event> {
    if s == [] then [x]
    else if x.start <= s[0].start then [x] + s
    else [s[0]] + Insert(x, s[1..])
  }

  /** Insertion keeps the events and adds `x` once. */
  lemma {:induction false} InsertPermutes(x: Event, s: seq<Event>)
    ensures multiset(Insert(x, s)) == multiset(s) + multiset{x}
  {
    if s != [] && x.start > s[0].start {
      InsertPermutes(x, s[1..]);
      assert s == [s[0]] + s[1..];
    }
  }

  /** Insertion into a sorted sequence keeps it sorted. */
  lemma {:induction false} InsertSorted(x: Event, s: seq<Event>)
    requires SortedByStart(s)
    ensures SortedByStart(Insert(x, s))
    ensures Insert(x, s)[0] == x || Insert(x, s)[0] == s[0]
  {
    if s != [] && x.start > s[0].start {
      InsertSorted(x, s[1..]);
      var rest := Insert(x, s[1..]);
      assert s[0].start <= rest[0].start;
    }
  }

  /** Inserting the head into the sorted tail sorts the whole sequence. */
  lemma SortStep(s: seq<Event>, tail: seq<Event>)
    requires s != [] && SortedByStart(tail) && multiset(tail) == multiset(s[1..])
    ensures SortedByStart(Insert(s[0], tail))
    ensures multiset(Insert(s[0], tail)) == multiset(s)
  {
    InsertSorted(s[0], tail);
    InsertPermutes(s[0], tail);
    assert multiset(s) == multiset{s[0]} + multiset(s[1..]) by {
      assert s == [s[0]] + s[1..];
    }
  }

  /** Insertion sort on start time. */
  function SortByStart(s: seq<Event>): (r: seq<Event>)
    ensures SortedByStart(r)
    ensures multiset(r) == multiset(s)
  {
    if s == [] then []
    else
      var tail := SortByStart(s[1..]);
      SortStep(s, tail);
      Insert(s[0], tail)
  }

  /** `[e]` when `e` starts at `t`, otherwise nothing. */
  function Tie(e: Event, t: int): seq<Event> {
    if e.start == t then [e] else []
  }

  /** The events of `s` that start at `t`, in their order in `s`. */
  function WithStart(s: seq<Event>, t: int): seq<Event> {
    if s == [] then [] else Tie(s[0], t) + WithStart(s[1..], t)
  }

  lemma WithStartCons(e: Event, s: seq<Event>, t: int)
    ensures WithStart([e] + s, t) == Tie(e, t) + WithStart(s, t)
  {
    assert ([e] + s)[1..] == s;
  }

  /** `WithStart` keeps exactly the events starting at `t`. */
  lemma {:induction false} WithStartMembership(s: seq<Event>, t: int, e: Event)
    ensures e in WithStart(s, t) <==> e in s && e.start == t
  {
    if s != [] {
      WithStartMembership(s[1..], t, e);
      assert s == [s[0]] + s[1..];
    }
  }

  /** Insertion puts `x` before every event with its own start and moves no other tie. */
  lemma {:induction false} InsertStable(x: Event, s: seq<Event>, t: int)
    ensures WithStart(Insert(x, s), t) == Tie(x, t) + WithStart(s, t)
  {
    if s == [] || x.start <= s[0].start {
      WithStartCons(x, s, t);
    } else {
      InsertStable(x, s[1..], t);
      InsertPastHead(x, s, t);
    }
  }

  lemma InsertPastHead(x: Event, s: seq<Event>, t: int)
    requires s != [] && x.start > s[0].start
    requires WithStart(Insert(x, s[1..]), t) == Tie(x, t) + WithStart(s[1..], t)
    ensures WithStart(Insert(x, s), t) == Tie(x, t) + WithStart(s, t)
  {
    var rest := Insert(x, s[1..]);
    var w := WithStart(s[1..], t);
    assert WithStart(Insert(x, s), t) == Tie(s[0], t) + (Tie(x, t) + w) by {
      WithStartCons(s[0], rest, t);
    }
    assert WithStart(s, t) == Tie(s[0], t) + w by {
      WithStartCons(s[0], s[1..], t);
      assert s == [s[0]] + s[1..];
    }
    // x starts strictly later than s[0], so at most one of the two joins the tie group.
    SwapAroundEmpty(Tie(s[0], t), Tie(x, t), w);
  }

  lemma SwapAroundEmpty(a: seq<Event>, b: seq<Event>, w: seq<Event>)
    requires a == [] || b == []
    ensures a + (b + w) == b + (a + w)
  {
    if a == [] {
      assert a + (b + w) == b + w == b + (a + w);
    } else {
      assert a + (b + w) == a + w == b + (a + w);
    }
  }

  /**
   * The sort is stable: for every start time, the events starting then appear
   * in the result in the same order as in the input.
   */
  lemma {:induction false} SortStable(s: seq<Event>, t: int)
    ensures WithStart(SortByStart(s), t) == WithStart(s, t)
  {
    if s != [] {
      SortStable(s[1..], t);
      InsertStable(s[0], SortByStart(s[1..]), t);
    }
  }

  /** Filtering a list with no cancelled event returns it unchanged. */
  lemma {:induction false} ActiveOfActive(s: seq<Event>)
    requires forall e :: e in s ==> !IsCancelled(e)
    ensures Active(s) == s
  {
    if s != [] {
      assert forall e :: e in s[1..] ==> e in s;
      ActiveOfActive(s[1..]);
      assert s == [s[0]] + s[1..];
    }
  }

  /** Filtering by status and selecting a start time commute. */
  lemma {:induction false} ActiveWithStart(s: seq<Event>, t: int)
    ensures WithStart(Active(s), t) == Active(WithStart(s, t))
  {
    if s != [] {
      ActiveWithStart(s[1..], t);
      var rest := Active(s[1..]);
      if IsCancelled(s[0]) {
        assert Active(s) == rest;
      } else {
        assert Active(s) == [s[0]] + rest;
        assert ([s[0]] + rest)[1..] == rest;
      }
      var w := WithStart(s[1..], t);
      if s[0].start == t {
        assert WithStart(s, t) == [s[0]] + w;
        assert ([s[0]] + w)[1..] == w;
      } else {
        assert WithStart(s, t) == w;
      }
    }
  }

  /** The filter and sort steps of `getUpcomingBookings`. */
  function UpcomingBookings(events: seq<Event>): (r: seq<Event>)
    ensures SortedByStart(r)
    ensures multiset(r) == multiset(Active(events))
    ensures forall e :: e in r <==> e in events && !IsCancelled(e)
    ensures forall t :: WithStart(r, t) == Active(WithStart(events, t))
    ensures forall t :: (forall e :: e in WithStart(events, t) ==> !IsCancelled(e)) ==> WithStart(r, t) == WithStart(events, t)
  {
    var r := SortByStart(Active(events));
    forall t ensures WithStart(r, t) == Active(WithStart(events, t)) {
      SortStable(Active(events), t);
      ActiveWithStart(events, t);
    }
    forall t | forall e :: e in WithStart(events, t) ==> !IsCancelled(e)
      ensures WithStart(r, t) == WithStart(events, t)
    {
      ActiveOfActive(WithStart(events, t));
    }
    assert forall e :: e in r <==> e in multiset(Active(events));
    r
  }
}
