/** The scheduler's entity store as one immutable value: events, resources
    and the allocations that bind a resource to an event. Times are integer
    seconds. */
module Store {
  import opened Interval

  datatype Option<+T> = None | Some(value: T)

  /** An event occupies the half-open interval [startTime, endTime). */
  datatype Event = Event(id: nat, title: string, description: string, startTime: int, endTime: int)

  datatype Resource = Resource(id: nat, name: string, kind: string)

  /** The binding of one resource to one event. */
  datatype Allocation = Allocation(id: nat, eventId: nat, resourceId: nat)

  /** Why an operation refused to change the store. */
  datatype Error =
    | NotFound
    | InvalidInterval
    | DuplicateAllocation
    | SchedulingConflict(resourceId: nat, other: Event)

  /** A mutating operation yields the new store or an error; on an error no
      new store exists, so the caller's store is exactly as before. */
  datatype Result<+T> = Ok(value: T) | Err(error: Error)

  /** Events and resources are keyed by id; allocations keep the order in
      which they were made. The counters hand out ids that were never used. */
  datatype Store = Store(
    events: map<nat, Event>,
    resources: map<nat, Resource>,
    allocations: seq<Allocation>,
    nextEventId: nat,
    nextResourceId: nat,
    nextAllocationId: nat)

  /** An allocation joined with its event, as the scheduler's queries return
      them. */
  datatype Booking = Booking(allocation: Allocation, event: Event)

  /** The store before anything is added; ids start at 1. */
  const EmptyStore := Store(map[], map[], [], 1, 1, 1)

  predicate EventsOverlap(a: Event, b: Event) {
    Overlaps(a.startTime, a.endTime, b.startTime, b.endTime)
  }

  // Well-formedness: the structural facts every operation keeps.

  ghost predicate EventsWellFormed(st: Store) {
    forall id :: id in st.events ==>
      && 1 <= id < st.nextEventId
      && st.events[id].id == id
      && st.events[id].startTime < st.events[id].endTime
  }

  ghost predicate ResourcesWellFormed(st: Store) {
    forall id :: id in st.resources ==>
      1 <= id < st.nextResourceId && st.resources[id].id == id
  }

  /** Every allocation has an id already handed out and refers to an existing
      event and resource. */
  ghost predicate AllocationsWellFormed(st: Store) {
    forall a :: a in st.allocations ==>
      && 1 <= a.id < st.nextAllocationId
      && a.eventId in st.events
      && a.resourceId in st.resources
  }

  ghost predicate UniqueIds(allocs: seq<Allocation>) {
    forall i, j :: 0 <= i < j < |allocs| ==> allocs[i].id != allocs[j].id
  }

  /** No resource is allocated twice to the same event. */
  ghost predicate UniquePairs(allocs: seq<Allocation>) {
    forall a, b :: a in allocs && b in allocs && a.eventId == b.eventId && a.resourceId == b.resourceId ==> a == b
  }

  ghost predicate WellFormed(st: Store) {
    && 1 <= st.nextEventId && 1 <= st.nextResourceId && 1 <= st.nextAllocationId
    && EventsWellFormed(st)
    && ResourcesWellFormed(st)
    && AllocationsWellFormed(st)
    && UniqueIds(st.allocations)
    && UniquePairs(st.allocations)
  }

  /** The scheduler's central rule: two different allocations of the same
      resource never have overlapping events. */
  ghost predicate NoDoubleBooking(st: Store) {
    forall a, b ::
      a in st.allocations && b in st.allocations && a != b && a.resourceId == b.resourceId
      && a.eventId in st.events && b.eventId in st.events
      ==> !EventsOverlap(st.events[a.eventId], st.events[b.eventId])
  }

  lemma EmptyStoreIsConsistent()
    ensures WellFormed(EmptyStore) && NoDoubleBooking(EmptyStore)
  {
  }

  // Queries shared by the conflict and utilization reports.

  /** `b` is an allocation on `resourceId` joined with its (existing) event. */
  ghost predicate IsBookingOf(st: Store, resourceId: nat, b: Booking) {
    && b.allocation in st.allocations
    && b.allocation.resourceId == resourceId
    && b.allocation.eventId in st.events
    && b.event == st.events[b.allocation.eventId]
  }

  /** No allocation occurs twice in a list of bookings. */
  ghost predicate DistinctBookings(bs: seq<Booking>) {
    forall i, j :: 0 <= i < j < |bs| ==> bs[i].allocation.id != bs[j].allocation.id
  }

  /** The allocations of `resourceId` joined with their events, in allocation
      order; as in an inner join, an allocation whose event is missing
      contributes nothing. */
  function BookingsOf(st: Store, resourceId: nat): (r: seq<Booking>)
    ensures forall b :: b in r <==> IsBookingOf(st, resourceId, b)
    ensures UniqueIds(st.allocations) ==> DistinctBookings(r)
  {
    BookingsIn(st, st.allocations, resourceId)
  }

  function BookingsIn(st: Store, allocs: seq<Allocation>, resourceId: nat): (r: seq<Booking>)
    ensures forall b :: b in r <==>
      && b.allocation in allocs
      && b.allocation.resourceId == resourceId
      && b.allocation.eventId in st.events
      && b.event == st.events[b.allocation.eventId]
    ensures UniqueIds(allocs) ==> DistinctBookings(r)
    decreases |allocs|
  {
    if |allocs| == 0 then []
    else
      var prefix := allocs[..|allocs| - 1];
      var a := allocs[|allocs| - 1];
      assert allocs == prefix + [a];
      BookingsIn(st, prefix, resourceId)
        + (if a.resourceId == resourceId && a.eventId in st.events then [Booking(a, st.events[a.eventId])] else [])
  }

  /** The ids below `n` that name a resource, ascending: the order in which
      the reports walk the resources. */
  function ResourceIdsBelow(st: Store, n: nat): (r: seq<nat>)
    ensures forall id :: id in r <==> id < n && id in st.resources
    ensures forall i, j :: 0 <= i < j < |r| ==> r[i] < r[j]
  {
    if n == 0 then []
    else
      var below := ResourceIdsBelow(st, n - 1);
      assert forall i :: 0 <= i < |below| ==> below[i] in below;
      below + (if n - 1 in st.resources then [n - 1] else [])
  }

  /** Every resource of a well-formed store, in ascending id order. */
  function ResourceOrder(st: Store): (r: seq<nat>)
    ensures forall id :: id in r ==> id in st.resources
    ensures ResourcesWellFormed(st) ==> forall id :: id in st.resources ==> id in r
    ensures forall i, j :: 0 <= i < j < |r| ==> r[i] < r[j]
  {
    ResourceIdsBelow(st, st.nextResourceId)
  }
}
