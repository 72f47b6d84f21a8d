/** The conflict detector: does any allocation of a resource hold an event
    that overlaps a candidate interval? */
module ConflictCheck {
  import opened Interval
  import opened Store

  /** Whether the optional exclusion skips `eventId`. The scheduler tests the
      exclusion for truthiness, so an exclusion id of 0 skips nothing. */
  predicate Excludes(exclude: Option<nat>, eventId: nat) {
    exclude.Some? && exclude.value != 0 && exclude.value == eventId
  }

  /** Allocation `a` stands in the way of booking [startTime, endTime) on
      `resourceId`: it is on that resource, its event exists and is not the
      excluded one, and that event overlaps the candidate. */
  predicate Blocks(st: Store, a: Allocation, resourceId: nat, startTime: int, endTime: int, exclude: Option<nat>) {
    && a.resourceId == resourceId
    && a.eventId in st.events
    && !Excludes(exclude, a.eventId)
    && Overlaps(startTime, endTime, st.events[a.eventId].startTime, st.events[a.eventId].endTime)
  }

  /** Some event blocking the candidate interval on `resourceId`, or None when
      there is none. Which blocking event is returned is not specified. */
  function CheckConflict(st: Store, resourceId: nat, startTime: int, endTime: int, exclude: Option<nat>): (r: Option<Event>)
    ensures r.None? <==> forall a :: a in st.allocations ==> !Blocks(st, a, resourceId, startTime, endTime, exclude)
    ensures r.Some? ==>
      exists a :: a in st.allocations && Blocks(st, a, resourceId, startTime, endTime, exclude)
                  && r.value == st.events[a.eventId]
  {
    ScanFrom(st, 0, resourceId, startTime, endTime, exclude)
  }

  /** The scan over the allocations from index `i` on, returning the event of
      the first one that blocks. */
  function ScanFrom(st: Store, i: nat, resourceId: nat, startTime: int, endTime: int, exclude: Option<nat>): (r: Option<Event>)
    requires i <= |st.allocations|
    ensures r.None? <==>
      forall k :: i <= k < |st.allocations| ==> !Blocks(st, st.allocations[k], resourceId, startTime, endTime, exclude)
    ensures r.Some? ==>
      exists k :: i <= k < |st.allocations| && Blocks(st, st.allocations[k], resourceId, startTime, endTime, exclude)
                  && r.value == st.events[st.allocations[k].eventId]
    decreases |st.allocations| - i
  {
    if i == |st.allocations| then None
    else
      var a := st.allocations[i];
      if Blocks(st, a, resourceId, startTime, endTime, exclude) then Some(st.events[a.eventId])
      else ScanFrom(st, i + 1, resourceId, startTime, endTime, exclude)
  }

  /** Under the no-double-booking rule, an allocated event that is checked
      against its own resource with itself excluded never meets a conflict:
      re-saving an event with unchanged times always passes. */
  lemma UnchangedEventNeverConflicts(st: Store, a: Allocation)
    requires WellFormed(st) && NoDoubleBooking(st)
    requires a in st.allocations
    ensures var e := st.events[a.eventId];
            CheckConflict(st, a.resourceId, e.startTime, e.endTime, Some(a.eventId)).None?
  {
    var e := st.events[a.eventId];
    forall b | b in st.allocations
      ensures !Blocks(st, b, a.resourceId, e.startTime, e.endTime, Some(a.eventId))
    {
      if b.resourceId == a.resourceId && b.eventId in st.events && b.eventId != a.eventId {
        var other := st.events[b.eventId];
        assert !EventsOverlap(e, other);
        OverlapsSymmetric(e.startTime, e.endTime, other.startTime, other.endTime);
      }
    }
  }
}
