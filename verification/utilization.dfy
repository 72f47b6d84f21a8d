/** The utilization report: per resource, the booked time of the events
    lying wholly inside a date window, and how many of them are still to
    start. Durations are in seconds. */
module Utilization {
  import opened Interval
  import opened Store

  /** Seconds from 00:00:00 to 23:59:59: the report moves the window's last
      date to that instant. */
  const LastSecondOfDay: int := 23 * 3600 + 59 * 60 + 59

  /** One row of the report. */
  datatype Usage = Usage(resource: Resource, totalSeconds: int, upcoming: nat)

  /** The event lies entirely inside [windowStart, windowEnd]; an event that
      only partly overlaps the window does not count at all. */
  predicate InWindow(e: Event, windowStart: int, windowEnd: int) {
    windowStart <= e.startTime && e.endTime <= windowEnd
  }

  /** The bookings whose events lie inside the window, in their given order. */
  function WindowBookings(bs: seq<Booking>, windowStart: int, windowEnd: int): (r: seq<Booking>)
    ensures forall b :: b in r <==> b in bs && InWindow(b.event, windowStart, windowEnd)
    ensures DistinctBookings(bs) ==> DistinctBookings(r)
    decreases |bs|
  {
    if |bs| == 0 then []
    else
      var prefix := bs[..|bs| - 1];
      var b := bs[|bs| - 1];
      assert bs == prefix + [b];
      var kept := WindowBookings(prefix, windowStart, windowEnd);
      assert forall k :: 0 <= k < |kept| ==> kept[k] in prefix;
      kept + (if InWindow(b.event, windowStart, windowEnd) then [b] else [])
  }

  function Duration(b: Booking): int {
    b.event.endTime - b.event.startTime
  }

  /** The summed durations of the bookings. */
  function TotalDuration(bs: seq<Booking>): int {
    if |bs| == 0 then 0 else TotalDuration(bs[..|bs| - 1]) + Duration(bs[|bs| - 1])
  }

  /** How many of the bookings start strictly after `now`; never more than
      there are bookings. */
  function CountStartingAfter(bs: seq<Booking>, now: int): (r: nat)
    ensures r <= |bs|
  {
    if |bs| == 0 then 0
    else CountStartingAfter(bs[..|bs| - 1], now) + (if bs[|bs| - 1].event.startTime > now then 1 else 0)
  }

  /** The accumulation loop of one report row: add up the durations and count
      the bookings that have not started by `now`. */
  method ResourceUsage(bs: seq<Booking>, now: int) returns (total: int, upcoming: nat)
    ensures total == TotalDuration(bs)
    ensures upcoming == CountStartingAfter(bs, now)
    ensures upcoming <= |bs|
  {
    total, upcoming := 0, 0;
    for i := 0 to |bs|
      invariant total == TotalDuration(bs[..i])
      invariant upcoming == CountStartingAfter(bs[..i], now)
    {
      assert bs[..i + 1][..i] == bs[..i];
      total := total + Duration(bs[i]);
      if bs[i].event.startTime > now {
        upcoming := upcoming + 1;
      }
    }
    assert bs[..|bs|] == bs;
  }

  /** The bookings of `resourceId` that the report counts for the window from
      `startDay` (a midnight) to the last second of `endDay`. */
  function CountedBookings(st: Store, resourceId: nat, startDay: int, endDay: int): seq<Booking> {
    WindowBookings(BookingsOf(st, resourceId), startDay, endDay + LastSecondOfDay)
  }

  /** One row per resource, in ascending id order, over the window from
      `startDay` to the end of `endDay`; `now` is the moment of reporting. */
  method Report(st: Store, startDay: int, endDay: int, now: int) returns (rows: seq<Usage>)
    ensures |rows| == |ResourceOrder(st)|
    ensures forall k :: 0 <= k < |rows| ==>
      var id := ResourceOrder(st)[k];
      var counted := CountedBookings(st, id, startDay, endDay);
      && rows[k].resource == st.resources[id]
      && rows[k].totalSeconds == TotalDuration(counted)
      && rows[k].upcoming == CountStartingAfter(counted, now)
      && rows[k].upcoming <= |counted|
  {
    var ids := ResourceOrder(st);
    rows := [];
    for k := 0 to |ids|
      invariant |rows| == k
      invariant forall n :: 0 <= n < k ==>
        var counted := CountedBookings(st, ids[n], startDay, endDay);
        && rows[n].resource == st.resources[ids[n]]
        && rows[n].totalSeconds == TotalDuration(counted)
        && rows[n].upcoming == CountStartingAfter(counted, now)
    {
      assert ids[k] in ids;
      var counted := CountedBookings(st, ids[k], startDay, endDay);
      var total, upcoming := ResourceUsage(counted, now);
      rows := rows + [Usage(st.resources[ids[k]], total, upcoming)];
    }
  }

  // Booked time never exceeds the window.

  lemma {:induction false} TotalDurationConcat(a: seq<Booking>, b: seq<Booking>)
    ensures TotalDuration(a + b) == TotalDuration(a) + TotalDuration(b)
    decreases |b|
  {
    if |b| > 0 {
      var b' := b[..|b| - 1];
      assert (a + b)[..|a + b| - 1] == a + b';
      TotalDurationConcat(a, b');
    } else {
      assert a + b == a;
    }
  }

  /** Removing the booking at `m` removes exactly its duration. */
  lemma TotalDurationRemove(bs: seq<Booking>, m: nat)
    requires m < |bs|
    ensures TotalDuration(bs[..m] + bs[m + 1..]) == TotalDuration(bs) - Duration(bs[m])
  {
    var before, x, after := bs[..m], bs[m], bs[m + 1..];
    assert bs == (before + [x]) + after;
    assert (before + [x])[..|before|] == before;
    TotalDurationConcat(before + [x], after);
    TotalDurationConcat(before, after);
  }

  /** Index of a booking whose event ends last. */
  function LatestEnd(bs: seq<Booking>): (r: nat)
    requires |bs| > 0
    ensures r < |bs|
    ensures forall k :: 0 <= k < |bs| ==> bs[k].event.endTime <= bs[r].event.endTime
  {
    if |bs| == 1 then 0
    else
      var m := LatestEnd(bs[..|bs| - 1]);
      assert forall k :: 0 <= k < |bs| - 1 ==> bs[..|bs| - 1][k] == bs[k];
      if bs[|bs| - 1].event.endTime > bs[m].event.endTime then |bs| - 1 else m
  }

  /** Every booking's event is non-empty and lies inside [lo, hi]. */
  ghost predicate InsideSpan(bs: seq<Booking>, lo: int, hi: int) {
    forall k :: 0 <= k < |bs| ==> lo <= bs[k].event.startTime < bs[k].event.endTime <= hi
  }

  /** No two bookings at different positions have overlapping events. */
  ghost predicate PairwiseDisjoint(bs: seq<Booking>) {
    forall i, j :: 0 <= i < |bs| && 0 <= j < |bs| && i != j ==> !EventsOverlap(bs[i].event, bs[j].event)
  }

  /** Pairwise disjoint non-empty intervals inside [lo, hi] add up to at most
      hi - lo. The event ending last is set aside: every other one ends by
      the time it starts. */
  lemma {:induction false} TotalBoundedBySpan(bs: seq<Booking>, lo: int, hi: int)
    requires lo <= hi
    requires InsideSpan(bs, lo, hi) && PairwiseDisjoint(bs)
    ensures TotalDuration(bs) <= hi - lo
    decreases |bs|
  {
    if |bs| > 0 {
      var m := LatestEnd(bs);
      var x := bs[m].event;
      var rest := bs[..m] + bs[m + 1..];
      assert forall i :: 0 <= i < |rest| ==> rest[i] == bs[if i < m then i else i + 1];
      forall i | 0 <= i < |rest| ensures lo <= rest[i].event.startTime < rest[i].event.endTime <= x.startTime {
        var k := if i < m then i else i + 1;
        assert !EventsOverlap(bs[k].event, x);
      }
      forall i, j | 0 <= i < |rest| && 0 <= j < |rest| && i != j
        ensures !EventsOverlap(rest[i].event, rest[j].event)
      {
        var i', j' := if i < m then i else i + 1, if j < m then j else j + 1;
        assert !EventsOverlap(bs[i'].event, bs[j'].event);
      }
      TotalBoundedBySpan(rest, lo, x.startTime);
      TotalDurationRemove(bs, m);
    }
  }

  /** On a consistent store a resource's booked time in a window is at most
      the window's length, and nothing when the window is empty. */
  lemma ReportTotalWithinWindow(st: Store, resourceId: nat, startDay: int, endDay: int)
    requires WellFormed(st) && NoDoubleBooking(st)
    ensures var total := TotalDuration(CountedBookings(st, resourceId, startDay, endDay));
            var windowEnd := endDay + LastSecondOfDay;
            && (startDay <= windowEnd ==> total <= windowEnd - startDay)
            && (windowEnd < startDay ==> total == 0)
  {
    var windowEnd := endDay + LastSecondOfDay;
    var bs := CountedBookings(st, resourceId, startDay, endDay);
    forall k | 0 <= k < |bs| ensures startDay <= bs[k].event.startTime < bs[k].event.endTime <= windowEnd {
      assert bs[k] in bs;
    }
    forall i, j | 0 <= i < |bs| && 0 <= j < |bs| && i != j
      ensures !EventsOverlap(bs[i].event, bs[j].event)
    {
      assert bs[i] in bs && bs[j] in bs;
      assert bs[i].allocation.id != bs[j].allocation.id;
    }
    if |bs| > 0 {
      assert startDay <= bs[0].event.startTime < bs[0].event.endTime <= windowEnd;
    }
    if startDay <= windowEnd {
      TotalBoundedBySpan(bs, startDay, windowEnd);
    }
  }

  /** The report window closes at 23:59:59 of its last date, so an event
      running up to midnight at the end of that date is left out. */
  lemma EventEndingAtMidnightExcluded(e: Event, startDay: int, endDay: int)
    requires e.endTime == endDay + 24 * 3600
    ensures !InWindow(e, startDay, endDay + LastSecondOfDay)
  {
  }
}
