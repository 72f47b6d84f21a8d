/** The conflicts diagnostic: for every resource, every pair of its
    allocations whose events overlap. The invariant forbids such pairs, so
    on a consistent store the report is empty. */
module ConflictReport {
  import opened Interval
  import opened Store

  /** One reported double booking: `first` starts no later than `second`. */
  datatype Conflict = Conflict(resource: Resource, first: Event, second: Event)

  predicate BookingsOverlap(x: Booking, y: Booking) {
    EventsOverlap(x.event, y.event)
  }

  ghost predicate SortedByStart(bs: seq<Booking>) {
    forall i, j :: 0 <= i < j < |bs| ==> bs[i].event.startTime <= bs[j].event.startTime
  }

  /** `x` is not a booking of any allocation already in `bs`. */
  ghost predicate NewAllocation(x: Booking, bs: seq<Booking>) {
    forall y :: y in bs ==> y.allocation.id != x.allocation.id
  }

  /** Insert `x` before the first booking that starts strictly later than
      it, so it follows every booking starting at the same time. */
  function Insert(x: Booking, bs: seq<Booking>): (r: seq<Booking>)
    ensures multiset(r) == multiset(bs) + multiset{x}
    ensures |r| == |bs| + 1
  {
    if |bs| == 0 then [x]
    else if x.event.startTime < bs[0].event.startTime then [x] + bs
    else
      assert bs == [bs[0]] + bs[1..];
      [bs[0]] + Insert(x, bs[1..])
  }

  lemma {:induction false} InsertMembers(x: Booking, bs: seq<Booking>)
    ensures forall y :: y in Insert(x, bs) <==> y == x || y in bs
  {
    var r := Insert(x, bs);
    forall y ensures y in r <==> y == x || y in bs {
      assert y in r <==> y in multiset(r);
      assert y in bs <==> y in multiset(bs);
    }
  }

  lemma {:induction false} InsertSorted(x: Booking, bs: seq<Booking>)
    requires SortedByStart(bs)
    ensures SortedByStart(Insert(x, bs))
  {
    if |bs| > 0 && x.event.startTime >= bs[0].event.startTime {
      var tail := bs[1..];
      InsertSorted(x, tail);
      InsertMembers(x, tail);
      var r := Insert(x, bs);
      assert r == [bs[0]] + Insert(x, tail);
      forall j | 0 < j < |r| ensures bs[0].event.startTime <= r[j].event.startTime {
        assert r[j] in Insert(x, tail);
      }
    }
  }

  lemma {:induction false} InsertDistinct(x: Booking, bs: seq<Booking>)
    requires DistinctBookings(bs) && NewAllocation(x, bs)
    ensures DistinctBookings(Insert(x, bs))
  {
    if |bs| > 0 && x.event.startTime >= bs[0].event.startTime {
      var tail := bs[1..];
      InsertDistinct(x, tail);
      InsertMembers(x, tail);
      var r := Insert(x, bs);
      assert r == [bs[0]] + Insert(x, tail);
      forall j | 0 < j < |r| ensures bs[0].allocation.id != r[j].allocation.id {
        assert r[j] in Insert(x, tail);
      }
    } else if |bs| > 0 {
      assert Insert(x, bs) == [x] + bs;
    }
  }

  /** The bookings ordered by event start, as the report's query orders
      them. The sort is stable: bookings with equal starts keep their
      order. */
  function SortByStart(bs: seq<Booking>): (r: seq<Booking>)
    ensures multiset(r) == multiset(bs)
    ensures |r| == |bs|
  {
    if |bs| == 0 then []
    else
      var prefix := bs[..|bs| - 1];
      var x := bs[|bs| - 1];
      assert bs == prefix + [x];
      Insert(x, SortByStart(prefix))
  }

  lemma SortByStartMembers(bs: seq<Booking>)
    ensures forall y :: y in SortByStart(bs) <==> y in bs
  {
    var r := SortByStart(bs);
    forall y ensures y in r <==> y in bs {
      assert y in r <==> y in multiset(r);
      assert y in bs <==> y in multiset(bs);
    }
  }

  lemma {:induction false} SortByStartOrdered(bs: seq<Booking>)
    ensures SortedByStart(SortByStart(bs))
    ensures DistinctBookings(bs) ==> DistinctBookings(SortByStart(bs))
  {
    if |bs| > 0 {
      var prefix := bs[..|bs| - 1];
      var x := bs[|bs| - 1];
      assert bs == prefix + [x];
      SortByStartOrdered(prefix);
      SortByStartMembers(prefix);
      var sorted := SortByStart(prefix);
      InsertSorted(x, sorted);
      if DistinctBookings(bs) {
        forall y | y in sorted ensures y.allocation.id != x.allocation.id {
          var k :| 0 <= k < |prefix| && prefix[k] == y;
          assert bs[k] == y;
        }
        InsertDistinct(x, sorted);
      }
    }
  }

  /** The sort is a permutation, in ascending order of start, and keeps
      distinct allocations distinct. */
  lemma SortByStartCorrect(bs: seq<Booking>)
    ensures forall y :: y in SortByStart(bs) <==> y in bs
    ensures SortedByStart(SortByStart(bs))
    ensures DistinctBookings(bs) ==> DistinctBookings(SortByStart(bs))
  {
    SortByStartMembers(bs);
    SortByStartOrdered(bs);
  }

  /** A booking starting no earlier than every booking of `bs` goes last. */
  lemma {:induction false} InsertAfterAll(x: Booking, bs: seq<Booking>)
    requires forall k :: 0 <= k < |bs| ==> bs[k].event.startTime <= x.event.startTime
    ensures Insert(x, bs) == bs + [x]
  {
    if |bs| > 0 {
      InsertAfterAll(x, bs[1..]);
      assert bs == [bs[0]] + bs[1..];
    }
  }

  /** Bookings already in order of start come back unchanged; in particular
      bookings that start at the same time keep their given order. */
  lemma {:induction false} SortByStartStable(bs: seq<Booking>)
    requires SortedByStart(bs)
    ensures SortByStart(bs) == bs
  {
    if |bs| > 0 {
      var prefix := bs[..|bs| - 1];
      var x := bs[|bs| - 1];
      assert bs == prefix + [x];
      SortByStartStable(prefix);
      InsertAfterAll(x, prefix);
    }
  }

  /** Two bookings with the same start keep their order. */
  lemma SortByStartKeepsTies(a: Booking, b: Booking)
    requires a.event.startTime == b.event.startTime
    ensures SortByStart([a, b]) == [a, b]
  {
    SortByStartStable([a, b]);
  }

  /** The pairs (bs[i], bs[k]) with `from <= k` that overlap, in order of k. */
  function RowFrom(bs: seq<Booking>, i: nat, from: nat): (r: seq<(Booking, Booking)>)
    requires i < |bs| && from <= |bs|
    ensures forall p :: p in r ==>
      exists k :: from <= k < |bs| && p == (bs[i], bs[k]) && BookingsOverlap(bs[i], bs[k])
    ensures forall k :: from <= k < |bs| && BookingsOverlap(bs[i], bs[k]) ==> (bs[i], bs[k]) in r
    decreases |bs| - from
  {
    if from == |bs| then []
    else (if BookingsOverlap(bs[i], bs[from]) then [(bs[i], bs[from])] else []) + RowFrom(bs, i, from + 1)
  }

  /** The pairwise scan from position `i`: for each i <= k, every later
      position l whose booking overlaps that of k. */
  function PairsFrom(bs: seq<Booking>, i: nat): (r: seq<(Booking, Booking)>)
    requires i <= |bs|
    ensures forall p :: p in r ==>
      exists k, l :: i <= k < l < |bs| && p == (bs[k], bs[l]) && BookingsOverlap(bs[k], bs[l])
    ensures forall k, l :: i <= k < l < |bs| && BookingsOverlap(bs[k], bs[l]) ==> (bs[k], bs[l]) in r
    decreases |bs| - i
  {
    if i == |bs| then []
    else RowFrom(bs, i, i + 1) + PairsFrom(bs, i + 1)
  }

  /** The overlapping pairs of the resource's bookings, sorted by start. */
  function ResourcePairs(st: Store, resourceId: nat): seq<(Booking, Booking)> {
    PairsFrom(SortByStart(BookingsOf(st, resourceId)), 0)
  }

  /** The conflicts of one resource: each emitted pair, named by its events. */
  function ResourceConflicts(st: Store, resourceId: nat): (r: seq<Conflict>)
    requires resourceId in st.resources
    ensures forall c :: c in r ==> c.resource == st.resources[resourceId] && EventsOverlap(c.first, c.second)
  {
    var ps := ResourcePairs(st, resourceId);
    assert forall k :: 0 <= k < |ps| ==> ps[k] in ps;
    seq(|ps|, k requires 0 <= k < |ps| => Conflict(st.resources[resourceId], ps[k].0.event, ps[k].1.event))
  }

  function ConflictsOver(st: Store, ids: seq<nat>): (r: seq<Conflict>)
    requires forall id :: id in ids ==> id in st.resources
    ensures forall c :: c in r ==> c.resource in st.resources.Values && EventsOverlap(c.first, c.second)
  {
    if |ids| == 0 then []
    else ConflictsOver(st, ids[..|ids| - 1]) + ResourceConflicts(st, ids[|ids| - 1])
  }

  /** Every conflict on every resource, resources in ascending id order.
      Each entry names a resource of the store and two overlapping events. */
  function Conflicts(st: Store): (r: seq<Conflict>)
    ensures forall c :: c in r ==> c.resource in st.resources.Values && EventsOverlap(c.first, c.second)
  {
    ConflictsOver(st, ResourceOrder(st))
  }

  lemma {:induction false} ConflictsOverIncludes(st: Store, ids: seq<nat>, k: nat, c: Conflict)
    requires forall i :: i in ids ==> i in st.resources
    requires k < |ids| && c in ResourceConflicts(st, ids[k])
    ensures c in ConflictsOver(st, ids)
  {
    var prefix := ids[..|ids| - 1];
    if k < |ids| - 1 {
      assert prefix[k] == ids[k];
      ConflictsOverIncludes(st, prefix, k, c);
    }
  }

  lemma {:induction false} ConflictsOverSource(st: Store, ids: seq<nat>, c: Conflict)
    requires forall i :: i in ids ==> i in st.resources
    requires c in ConflictsOver(st, ids)
    ensures exists id :: id in ids && c in ResourceConflicts(st, id)
  {
    var prefix := ids[..|ids| - 1];
    var last := ids[|ids| - 1];
    if c in ConflictsOver(st, prefix) {
      ConflictsOverSource(st, prefix, c);
      var id :| id in prefix && c in ResourceConflicts(st, id);
      assert id in ids;
    } else {
      assert c in ResourceConflicts(st, last);
    }
  }

  /** The scan of one resource emits pairs of bookings of that resource, of
      two different allocations, overlapping, in order of start. */
  lemma ResourcePairSound(st: Store, id: nat, p: (Booking, Booking))
    requires UniqueIds(st.allocations)
    requires p in ResourcePairs(st, id)
    ensures IsBookingOf(st, id, p.0) && IsBookingOf(st, id, p.1)
    ensures p.0.allocation.id != p.1.allocation.id
    ensures BookingsOverlap(p.0, p.1)
    ensures p.0.event.startTime <= p.1.event.startTime
  {
    var bookings := BookingsOf(st, id);
    var sorted := SortByStart(bookings);
    SortByStartCorrect(bookings);
    var k, l :| 0 <= k < l < |sorted| && p == (sorted[k], sorted[l]) && BookingsOverlap(sorted[k], sorted[l]);
    assert sorted[k] in bookings && sorted[l] in bookings;
  }

  /** The scan of one resource emits every overlapping pair of its bookings,
      in one order or the other. */
  lemma ResourcePairComplete(st: Store, id: nat, x: Booking, y: Booking)
    requires UniqueIds(st.allocations)
    requires IsBookingOf(st, id, x) && IsBookingOf(st, id, y) && x.allocation.id != y.allocation.id
    ensures BookingsOverlap(x, y) ==> (x, y) in ResourcePairs(st, id) || (y, x) in ResourcePairs(st, id)
  {
    var bookings := BookingsOf(st, id);
    var sorted := SortByStart(bookings);
    SortByStartCorrect(bookings);
    assert x in sorted && y in sorted;
    var i :| 0 <= i < |sorted| && sorted[i] == x;
    var j :| 0 <= j < |sorted| && sorted[j] == y;
    assert i != j;
    OverlapsSymmetric(x.event.startTime, x.event.endTime, y.event.startTime, y.event.endTime);
  }

  lemma ConflictOfPair(st: Store, id: nat, p: (Booking, Booking))
    requires id in st.resources && p in ResourcePairs(st, id)
    ensures Conflict(st.resources[id], p.0.event, p.1.event) in ResourceConflicts(st, id)
  {
    var ps := ResourcePairs(st, id);
    var n :| 0 <= n < |ps| && ps[n] == p;
    assert ResourceConflicts(st, id)[n] == Conflict(st.resources[id], p.0.event, p.1.event);
  }

  lemma PairOfConflict(st: Store, id: nat, c: Conflict)
    requires id in st.resources && c in ResourceConflicts(st, id)
    ensures exists p :: p in ResourcePairs(st, id) && c == Conflict(st.resources[id], p.0.event, p.1.event)
  {
    var ps := ResourcePairs(st, id);
    var n :| 0 <= n < |ps| && ResourceConflicts(st, id)[n] == c;
    assert ps[n] in ps;
  }

  /** A conflict reported for resource `id` pairs the bookings of two
      different allocations of it, overlapping, in order of start. */
  lemma ResourceConflictSound(st: Store, id: nat, c: Conflict)
    requires UniqueIds(st.allocations)
    requires id in st.resources && c in ResourceConflicts(st, id)
    ensures c.resource == st.resources[id]
    ensures exists x, y :: IsBookingOf(st, id, x) && IsBookingOf(st, id, y)
                           && x.allocation.id != y.allocation.id
                           && c.first == x.event && c.second == y.event
    ensures EventsOverlap(c.first, c.second)
    ensures c.first.startTime <= c.second.startTime
  {
    PairOfConflict(st, id, c);
    var p :| p in ResourcePairs(st, id) && c == Conflict(st.resources[id], p.0.event, p.1.event);
    ResourcePairSound(st, id, p);
  }

  /** Every reported conflict names a resource of the store and the events of
      two different allocations of it; the events overlap and the first
      starts no later than the second. */
  lemma ConflictsSound(st: Store, c: Conflict)
    requires WellFormed(st)
    requires c in Conflicts(st)
    ensures c.resource.id in st.resources && st.resources[c.resource.id] == c.resource
    ensures exists a, b ::
      && a in st.allocations && b in st.allocations && a.id != b.id
      && a.resourceId == c.resource.id && b.resourceId == c.resource.id
      && a.eventId in st.events && b.eventId in st.events
      && st.events[a.eventId] == c.first && st.events[b.eventId] == c.second
    ensures EventsOverlap(c.first, c.second)
    ensures c.first.startTime <= c.second.startTime
  {
    ConflictsOverSource(st, ResourceOrder(st), c);
    var id :| id in ResourceOrder(st) && c in ResourceConflicts(st, id);
    ResourceConflictSound(st, id, c);
    var x, y :| IsBookingOf(st, id, x) && IsBookingOf(st, id, y)
                && x.allocation.id != y.allocation.id
                && c.first == x.event && c.second == y.event;
    assert c.resource.id == id;
    var a, b := x.allocation, y.allocation;
    assert st.events[a.eventId] == c.first && st.events[b.eventId] == c.second;
  }

  /** Every two different allocations of a resource whose events overlap are
      reported, in one order or the other. */
  lemma ConflictsComplete(st: Store, a: Allocation, b: Allocation)
    requires WellFormed(st)
    requires a in st.allocations && b in st.allocations && a != b && a.resourceId == b.resourceId
    ensures var res := st.resources[a.resourceId];
            var ea := st.events[a.eventId];
            var eb := st.events[b.eventId];
            EventsOverlap(ea, eb) ==>
              Conflict(res, ea, eb) in Conflicts(st) || Conflict(res, eb, ea) in Conflicts(st)
  {
    var id := a.resourceId;
    var ea, eb := st.events[a.eventId], st.events[b.eventId];
    var x, y := Booking(a, ea), Booking(b, eb);
    assert a.id != b.id by {
      var i :| 0 <= i < |st.allocations| && st.allocations[i] == a;
      var j :| 0 <= j < |st.allocations| && st.allocations[j] == b;
    }
    ResourcePairComplete(st, id, x, y);
    if EventsOverlap(ea, eb) {
      var p := if (x, y) in ResourcePairs(st, id) then (x, y) else (y, x);
      ConflictOfPair(st, id, p);
      var order := ResourceOrder(st);
      assert id in order;
      var k :| 0 <= k < |order| && order[k] == id;
      ConflictsOverIncludes(st, order, k, Conflict(st.resources[id], p.0.event, p.1.event));
    }
  }

  /** The report is empty exactly when no resource is double-booked. */
  lemma ConflictsEmptyIffNoDoubleBooking(st: Store)
    requires WellFormed(st)
    ensures Conflicts(st) == [] <==> NoDoubleBooking(st)
  {
    forall c | c in Conflicts(st) ensures !NoDoubleBooking(st) {
      ConflictsSound(st, c);
    }
    if Conflicts(st) == [] {
      forall a, b | a in st.allocations && b in st.allocations && a != b && a.resourceId == b.resourceId
        ensures !EventsOverlap(st.events[a.eventId], st.events[b.eventId])
      {
        ConflictsComplete(st, a, b);
      }
    } else {
      assert Conflicts(st)[0] in Conflicts(st);
    }
  }

  // Each double booking is reported once.

  ghost predicate NoDuplicates<T>(s: seq<T>) {
    forall m, n :: 0 <= m < n < |s| ==> s[m] != s[n]
  }

  lemma NoDuplicatesConcat<T>(a: seq<T>, b: seq<T>)
    requires NoDuplicates(a) && NoDuplicates(b)
    requires forall x :: x in a ==> x !in b
    ensures NoDuplicates(a + b)
  {
    forall m, n | 0 <= m < n < |a + b| ensures (a + b)[m] != (a + b)[n] {
      if m < |a| && n >= |a| {
        assert (a + b)[m] in a && (a + b)[n] == b[n - |a|];
      }
    }
  }

  lemma {:induction false} RowFromNoDuplicates(bs: seq<Booking>, i: nat, from: nat)
    requires DistinctBookings(bs)
    requires i < |bs| && from <= |bs|
    ensures NoDuplicates(RowFrom(bs, i, from))
    decreases |bs| - from
  {
    if from < |bs| {
      var head := if BookingsOverlap(bs[i], bs[from]) then [(bs[i], bs[from])] else [];
      var rest := RowFrom(bs, i, from + 1);
      RowFromNoDuplicates(bs, i, from + 1);
      forall q | q in rest ensures q.1 != bs[from] {
        var k :| from + 1 <= k < |bs| && q == (bs[i], bs[k]) && BookingsOverlap(bs[i], bs[k]);
        assert bs[k].allocation.id != bs[from].allocation.id;
      }
      NoDuplicatesConcat(head, rest);
    }
  }

  lemma {:induction false} PairsFromNoDuplicates(bs: seq<Booking>, i: nat)
    requires DistinctBookings(bs)
    requires i <= |bs|
    ensures NoDuplicates(PairsFrom(bs, i))
    decreases |bs| - i
  {
    if i < |bs| {
      var row := RowFrom(bs, i, i + 1);
      var rest := PairsFrom(bs, i + 1);
      RowFromNoDuplicates(bs, i, i + 1);
      PairsFromNoDuplicates(bs, i + 1);
      forall q | q in rest ensures q.0 != bs[i] {
        var k, l :| i + 1 <= k < l < |bs| && q == (bs[k], bs[l]) && BookingsOverlap(bs[k], bs[l]);
        assert bs[k].allocation.id != bs[i].allocation.id;
      }
      forall p | p in row ensures p.0 == bs[i] {
        var k :| i + 1 <= k < |bs| && p == (bs[i], bs[k]) && BookingsOverlap(bs[i], bs[k]);
      }
      NoDuplicatesConcat(row, rest);
    }
  }

  /** No pair of the scan appears reversed as well. */
  lemma PairsNeverReversed(bs: seq<Booking>)
    requires DistinctBookings(bs)
    ensures forall p :: p in PairsFrom(bs, 0) ==> (p.1, p.0) !in PairsFrom(bs, 0)
  {
    var ps := PairsFrom(bs, 0);
    forall p | p in ps ensures (p.1, p.0) !in ps {
      var k, l :| 0 <= k < l < |bs| && p == (bs[k], bs[l]) && BookingsOverlap(bs[k], bs[l]);
      forall q | q in ps ensures q != (p.1, p.0) {
        var k', l' :| 0 <= k' < l' < |bs| && q == (bs[k'], bs[l']) && BookingsOverlap(bs[k'], bs[l']);
        if k' == l {
          assert bs[l'].allocation.id != bs[k].allocation.id;
        } else {
          assert bs[k'].allocation.id != bs[l].allocation.id;
        }
      }
    }
  }

  /** Within one resource a booking is determined by its event. */
  lemma BookingDeterminedByEvent(st: Store, id: nat, x: Booking, y: Booking)
    requires WellFormed(st)
    requires IsBookingOf(st, id, x) && IsBookingOf(st, id, y)
    ensures x.event == y.event ==> x == y
  {
    assert x.event.id == x.allocation.eventId && y.event.id == y.allocation.eventId;
  }

  lemma ResourcePairsOnce(st: Store, id: nat)
    requires UniqueIds(st.allocations)
    ensures NoDuplicates(ResourcePairs(st, id))
    ensures forall p :: p in ResourcePairs(st, id) ==> (p.1, p.0) !in ResourcePairs(st, id)
  {
    var bookings := BookingsOf(st, id);
    SortByStartCorrect(bookings);
    PairsFromNoDuplicates(SortByStart(bookings), 0);
    PairsNeverReversed(SortByStart(bookings));
  }

  lemma ResourceConflictsNoDuplicates(st: Store, id: nat)
    requires WellFormed(st) && id in st.resources
    ensures NoDuplicates(ResourceConflicts(st, id))
  {
    var ps := ResourcePairs(st, id);
    var cs := ResourceConflicts(st, id);
    ResourcePairsOnce(st, id);
    forall m, n | 0 <= m < n < |cs| ensures cs[m] != cs[n] {
      assert ps[m] != ps[n];
      assert ps[m] in ps && ps[n] in ps;
      ResourcePairSound(st, id, ps[m]);
      ResourcePairSound(st, id, ps[n]);
      BookingDeterminedByEvent(st, id, ps[m].0, ps[n].0);
      BookingDeterminedByEvent(st, id, ps[m].1, ps[n].1);
    }
  }

  lemma ResourceConflictsNeverSwapped(st: Store, id: nat)
    requires WellFormed(st) && id in st.resources
    ensures forall c :: c in ResourceConflicts(st, id) ==>
              Conflict(c.resource, c.second, c.first) !in ResourceConflicts(st, id)
  {
    var ps := ResourcePairs(st, id);
    var cs := ResourceConflicts(st, id);
    ResourcePairsOnce(st, id);
    forall m, n | 0 <= m < |cs| && 0 <= n < |cs|
      ensures cs[n] != Conflict(cs[m].resource, cs[m].second, cs[m].first)
    {
      assert ps[m] in ps && ps[n] in ps;
      assert ps[n] != (ps[m].1, ps[m].0);
      ResourcePairSound(st, id, ps[m]);
      ResourcePairSound(st, id, ps[n]);
      BookingDeterminedByEvent(st, id, ps[m].0, ps[n].1);
      BookingDeterminedByEvent(st, id, ps[m].1, ps[n].0);
    }
  }

  lemma {:induction false} ConflictsOverOnce(st: Store, ids: seq<nat>)
    requires WellFormed(st)
    requires forall i :: i in ids ==> i in st.resources
    requires forall i, j :: 0 <= i < j < |ids| ==> ids[i] < ids[j]
    ensures NoDuplicates(ConflictsOver(st, ids))
  {
    if |ids| > 0 {
      var prefix := ids[..|ids| - 1];
      var last := ids[|ids| - 1];
      ConflictsOverOnce(st, prefix);
      ResourceConflictsNoDuplicates(st, last);
      forall c | c in ConflictsOver(st, prefix) ensures c !in ResourceConflicts(st, last) {
        ConflictsOverSource(st, prefix, c);
        var id :| id in prefix && c in ResourceConflicts(st, id);
        ResourceConflictSound(st, id, c);
        var k :| 0 <= k < |prefix| && prefix[k] == id;
        assert ids[k] == id && id < last;
        forall c' | c' in ResourceConflicts(st, last) ensures c' != c {
          ResourceConflictSound(st, last, c');
        }
      }
      NoDuplicatesConcat(ConflictsOver(st, prefix), ResourceConflicts(st, last));
    }
  }

  /** Each double-booked pair is reported exactly once: no entry repeats,
      and no entry also appears with its events swapped. */
  lemma ConflictsReportEachPairOnce(st: Store)
    requires WellFormed(st)
    ensures NoDuplicates(Conflicts(st))
    ensures forall c :: c in Conflicts(st) ==> Conflict(c.resource, c.second, c.first) !in Conflicts(st)
  {
    ConflictsOverOnce(st, ResourceOrder(st));
    forall c | c in Conflicts(st) ensures Conflict(c.resource, c.second, c.first) !in Conflicts(st) {
      var swapped := Conflict(c.resource, c.second, c.first);
      ConflictsOverSource(st, ResourceOrder(st), c);
      var id :| id in ResourceOrder(st) && c in ResourceConflicts(st, id);
      ResourceConflictSound(st, id, c);
      ResourceConflictsNeverSwapped(st, id);
      forall c' | c' in Conflicts(st) ensures c' != swapped {
        ConflictsOverSource(st, ResourceOrder(st), c');
        var id' :| id' in ResourceOrder(st) && c' in ResourceConflicts(st, id');
        ResourceConflictSound(st, id', c');
      }
    }
  }
}
