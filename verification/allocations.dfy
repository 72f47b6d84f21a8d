/** Binding resources to events and releasing them. */
module Allocations {
  import opened Interval
  import opened Store
  import opened ConflictCheck

  /** Some allocation already binds `resourceId` to `eventId`. */
  predicate HasPair(allocs: seq<Allocation>, eventId: nat, resourceId: nat) {
    exists a :: a in allocs && a.eventId == eventId && a.resourceId == resourceId
  }

  /** Allocate a resource to an event. Refused when either is missing, when
      the pair is already allocated (checked first), or when the resource
      holds another event overlapping this one; otherwise exactly one
      allocation is appended. */
  function Allocate(st: Store, eventId: nat, resourceId: nat): (r: Result<Store>)
    ensures eventId !in st.events || resourceId !in st.resources ==> r == Err(NotFound)
    ensures eventId in st.events && resourceId in st.resources && HasPair(st.allocations, eventId, resourceId)
            ==> r == Err(DuplicateAllocation)
    ensures r.Ok? <==>
      && eventId in st.events && resourceId in st.resources
      && !HasPair(st.allocations, eventId, resourceId)
      && forall b :: b in st.allocations ==>
           !Blocks(st, b, resourceId, st.events[eventId].startTime, st.events[eventId].endTime, None)
    ensures (eventId in st.events && resourceId in st.resources && !HasPair(st.allocations, eventId, resourceId) && r.Err?)
            ==> r.error.SchedulingConflict?
    ensures r.Err? && r.error.SchedulingConflict? ==>
      && r.error.resourceId == resourceId
      && exists b :: b in st.allocations && b.resourceId == resourceId && b.eventId in st.events
                     && r.error.other == st.events[b.eventId]
                     && EventsOverlap(st.events[eventId], r.error.other)
    ensures r.Ok? ==>
      && |r.value.allocations| == |st.allocations| + 1
      && r.value.allocations[..|st.allocations|] == st.allocations
      && r.value.allocations[|st.allocations|].eventId == eventId
      && r.value.allocations[|st.allocations|].resourceId == resourceId
      && r.value.events == st.events
      && r.value.resources == st.resources
  {
    if eventId !in st.events || resourceId !in st.resources then Err(NotFound)
    else if HasPair(st.allocations, eventId, resourceId) then Err(DuplicateAllocation)
    else
      var e := st.events[eventId];
      match CheckConflict(st, resourceId, e.startTime, e.endTime, None)
      case Some(other) => Err(SchedulingConflict(resourceId, other))
      case None =>
        var a := Allocation(st.nextAllocationId, eventId, resourceId);
        Ok(st.(allocations := st.allocations + [a], nextAllocationId := st.nextAllocationId + 1))
  }

  /** A successful allocation takes a fresh id and keeps the store
      consistent: the resource stays free of double bookings. */
  lemma AllocateKeepsInvariant(st: Store, eventId: nat, resourceId: nat)
    requires WellFormed(st) && NoDoubleBooking(st)
    requires Allocate(st, eventId, resourceId).Ok?
    ensures var st' := Allocate(st, eventId, resourceId).value;
            && (forall a :: a in st.allocations ==> a.id != st'.allocations[|st.allocations|].id)
            && WellFormed(st') && NoDoubleBooking(st')
  {
    var st' := Allocate(st, eventId, resourceId).value;
    var n := st'.allocations[|st.allocations|];
    assert st'.allocations == st.allocations + [n];
    var e := st.events[eventId];
    forall b | b in st.allocations && b.resourceId == resourceId
      ensures !EventsOverlap(st.events[b.eventId], e)
    {
      assert !Blocks(st, b, resourceId, e.startTime, e.endTime, None);
      var other := st.events[b.eventId];
      OverlapsSymmetric(e.startTime, e.endTime, other.startTime, other.endTime);
    }
  }

  /** Index of the allocation with id `allocationId`, searching from `i`. */
  function FindAllocation(allocs: seq<Allocation>, allocationId: nat, i: nat): (r: Option<nat>)
    requires i <= |allocs|
    ensures r.None? <==> forall k :: i <= k < |allocs| ==> allocs[k].id != allocationId
    ensures r.Some? ==> i <= r.value < |allocs| && allocs[r.value].id == allocationId
    decreases |allocs| - i
  {
    if i == |allocs| then None
    else if allocs[i].id == allocationId then Some(i)
    else FindAllocation(allocs, allocationId, i + 1)
  }

  /** Release an allocation. Refused only when no allocation has that id;
      removal cannot create a conflict, so nothing else is checked. */
  function Deallocate(st: Store, allocationId: nat): (r: Result<Store>)
    ensures r.Err? <==> forall a :: a in st.allocations ==> a.id != allocationId
    ensures r.Err? ==> r.error == NotFound
    ensures r.Ok? ==>
      && |r.value.allocations| == |st.allocations| - 1
      && (forall a :: a in r.value.allocations ==> a in st.allocations)
      && r.value.events == st.events
      && r.value.resources == st.resources
    ensures r.Ok? && UniqueIds(st.allocations) ==>
      forall a :: a in r.value.allocations <==> a in st.allocations && a.id != allocationId
  {
    match FindAllocation(st.allocations, allocationId, 0)
    case None => Err(NotFound)
    case Some(k) =>
      var allocs := st.allocations[..k] + st.allocations[k + 1..];
      assert st.allocations == st.allocations[..k] + [st.allocations[k]] + st.allocations[k + 1..];
      Ok(st.(allocations := allocs))
  }

  lemma DeallocateKeepsInvariant(st: Store, allocationId: nat)
    requires WellFormed(st) && NoDoubleBooking(st)
    requires Deallocate(st, allocationId).Ok?
    ensures WellFormed(Deallocate(st, allocationId).value) && NoDoubleBooking(Deallocate(st, allocationId).value)
  {
  }
}
