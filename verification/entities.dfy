/** Creating, editing and deleting events and resources. Editing an event's
    times re-validates every allocation it already holds. */
module Entities {
  import opened Interval
  import opened Store
  import opened ConflictCheck

  /** Create an event; its interval must be non-empty. */
  function AddEvent(st: Store, title: string, description: string, startTime: int, endTime: int): (r: Result<Store>)
    ensures r.Err? <==> startTime >= endTime
    ensures r.Err? ==> r.error == InvalidInterval
    ensures r.Ok? ==>
      && r.value.events.Keys == st.events.Keys + {st.nextEventId}
      && r.value.events[st.nextEventId] == Event(st.nextEventId, title, description, startTime, endTime)
      && (forall id :: id in st.events && id != st.nextEventId ==> r.value.events[id] == st.events[id])
      && r.value.resources == st.resources
      && r.value.allocations == st.allocations
  {
    if startTime >= endTime then Err(InvalidInterval)
    else
      var id := st.nextEventId;
      Ok(st.(events := st.events[id := Event(id, title, description, startTime, endTime)],
             nextEventId := id + 1))
  }

  /** A new event takes a fresh id and the store stays consistent. */
  lemma AddEventKeepsInvariant(st: Store, title: string, description: string, startTime: int, endTime: int)
    requires WellFormed(st) && NoDoubleBooking(st)
    requires AddEvent(st, title, description, startTime, endTime).Ok?
    ensures var st' := AddEvent(st, title, description, startTime, endTime).value;
            && st.nextEventId !in st.events
            && |st'.events| == |st.events| + 1
            && WellFormed(st') && NoDoubleBooking(st')
  {
    var st' := AddEvent(st, title, description, startTime, endTime).value;
    assert st.nextEventId !in st.events;
    assert st'.events.Keys == st.events.Keys + {st.nextEventId};
  }

  /** The new interval [startTime, endTime) fits every resource the event
      already holds: no allocation of another event on any of them overlaps
      it. */
  ghost predicate FitsAllocations(st: Store, eventId: nat, startTime: int, endTime: int) {
    forall a, b :: a in st.allocations && a.eventId == eventId && b in st.allocations
      ==> !Blocks(st, b, a.resourceId, startTime, endTime, Some(eventId))
  }

  /** Check the allocations of `eventId` from index `i` on against the new
      interval, each on its own resource with the event itself excluded.
      Yields the first failing resource and the event it collides with. */
  function RevalidateFrom(st: Store, eventId: nat, startTime: int, endTime: int, i: nat): (r: Option<(nat, Event)>)
    requires i <= |st.allocations|
    ensures r.None? <==>
      forall k, b :: i <= k < |st.allocations| && st.allocations[k].eventId == eventId && b in st.allocations
        ==> !Blocks(st, b, st.allocations[k].resourceId, startTime, endTime, Some(eventId))
    ensures r.Some? ==>
      exists k, b :: i <= k < |st.allocations| && st.allocations[k].eventId == eventId
        && st.allocations[k].resourceId == r.value.0
        && b in st.allocations && Blocks(st, b, r.value.0, startTime, endTime, Some(eventId))
        && r.value.1 == st.events[b.eventId]
    decreases |st.allocations| - i
  {
    if i == |st.allocations| then None
    else
      var a := st.allocations[i];
      if a.eventId != eventId then RevalidateFrom(st, eventId, startTime, endTime, i + 1)
      else match CheckConflict(st, a.resourceId, startTime, endTime, Some(eventId))
        case Some(other) => Some((a.resourceId, other))
        case None => RevalidateFrom(st, eventId, startTime, endTime, i + 1)
  }

  /** Edit an event's fields. The edit is refused when the event is missing,
      when the new interval is empty, or when it collides on some resource
      the event holds; only a successful edit changes anything. */
  function EditEvent(st: Store, eventId: nat, title: string, description: string, startTime: int, endTime: int): (r: Result<Store>)
    ensures eventId !in st.events ==> r == Err(NotFound)
    ensures eventId in st.events && startTime >= endTime ==> r == Err(InvalidInterval)
    ensures r.Ok? <==> eventId in st.events && startTime < endTime && FitsAllocations(st, eventId, startTime, endTime)
    ensures eventId in st.events && startTime < endTime && r.Err? ==> r.error.SchedulingConflict?
    ensures r.Err? && r.error.SchedulingConflict? ==>
      exists a, b :: a in st.allocations && a.eventId == eventId && a.resourceId == r.error.resourceId
        && b in st.allocations && Blocks(st, b, a.resourceId, startTime, endTime, Some(eventId))
        && r.error.other == st.events[b.eventId]
    ensures r.Ok? ==>
      && r.value.events.Keys == st.events.Keys
      && r.value.events[eventId] == st.events[eventId].(title := title, description := description,
                                                         startTime := startTime, endTime := endTime)
      && (forall id :: id in st.events && id != eventId ==> r.value.events[id] == st.events[id])
      && r.value.resources == st.resources
      && r.value.allocations == st.allocations
  {
    if eventId !in st.events then Err(NotFound)
    else if startTime >= endTime then Err(InvalidInterval)
    else match RevalidateFrom(st, eventId, startTime, endTime, 0)
      case Some((resourceId, other)) => Err(SchedulingConflict(resourceId, other))
      case None =>
        var e := st.events[eventId].(title := title, description := description,
                                     startTime := startTime, endTime := endTime);
        Ok(st.(events := st.events[eventId := e]))
  }

  /** A successful edit keeps the store consistent: in particular no
      resource of the event ends up double-booked. */
  lemma EditEventKeepsInvariant(st: Store, eventId: nat, title: string, description: string, startTime: int, endTime: int)
    requires WellFormed(st) && NoDoubleBooking(st)
    requires EditEvent(st, eventId, title, description, startTime, endTime).Ok?
    ensures var st' := EditEvent(st, eventId, title, description, startTime, endTime).value;
            WellFormed(st') && NoDoubleBooking(st')
  {
    var st' := EditEvent(st, eventId, title, description, startTime, endTime).value;
    forall a, b | a in st'.allocations && b in st'.allocations && a != b && a.resourceId == b.resourceId
      ensures !EventsOverlap(st'.events[a.eventId], st'.events[b.eventId])
    {
      if a.eventId == eventId {
        assert b.eventId != eventId;
        assert !Blocks(st, b, a.resourceId, startTime, endTime, Some(eventId));
      } else if b.eventId == eventId {
        assert !Blocks(st, a, b.resourceId, startTime, endTime, Some(eventId));
        var e := st.events[a.eventId];
        OverlapsSymmetric(startTime, endTime, e.startTime, e.endTime);
      }
    }
  }

  /** The allocations for which `keep` holds, in their original order. */
  function KeepAllocations(allocs: seq<Allocation>, keep: Allocation -> bool): (r: seq<Allocation>)
    ensures forall a :: a in r <==> a in allocs && keep(a)
    ensures UniqueIds(allocs) ==> UniqueIds(r)
    decreases |allocs|
  {
    if |allocs| == 0 then []
    else
      var prefix := allocs[..|allocs| - 1];
      var a := allocs[|allocs| - 1];
      assert allocs == prefix + [a];
      var kept := KeepAllocations(prefix, keep);
      assert forall k :: 0 <= k < |kept| ==> kept[k] in prefix;
      kept + (if keep(a) then [a] else [])
  }

  /** Delete an event together with its allocations. */
  function DeleteEvent(st: Store, eventId: nat): (r: Result<Store>)
    ensures r.Err? <==> eventId !in st.events
    ensures r.Err? ==> r.error == NotFound
    ensures r.Ok? ==>
      && r.value.events == st.events - {eventId}
      && (forall a :: a in r.value.allocations <==> a in st.allocations && a.eventId != eventId)
      && r.value.resources == st.resources
  {
    if eventId !in st.events then Err(NotFound)
    else Ok(st.(events := st.events - {eventId},
                allocations := KeepAllocations(st.allocations, (a: Allocation) => a.eventId != eventId)))
  }

  lemma DeleteEventKeepsInvariant(st: Store, eventId: nat)
    requires WellFormed(st) && NoDoubleBooking(st)
    requires DeleteEvent(st, eventId).Ok?
    ensures WellFormed(DeleteEvent(st, eventId).value) && NoDoubleBooking(DeleteEvent(st, eventId).value)
  {
  }

  /** Register a resource; nothing about it is validated. */
  function AddResource(st: Store, name: string, kind: string): (r: Store)
    ensures r.resources.Keys == st.resources.Keys + {st.nextResourceId}
    ensures r.resources[st.nextResourceId] == Resource(st.nextResourceId, name, kind)
    ensures forall id :: id in st.resources && id != st.nextResourceId ==> r.resources[id] == st.resources[id]
    ensures r.events == st.events && r.allocations == st.allocations
  {
    var id := st.nextResourceId;
    st.(resources := st.resources[id := Resource(id, name, kind)], nextResourceId := id + 1)
  }

  lemma AddResourceKeepsInvariant(st: Store, name: string, kind: string)
    requires WellFormed(st) && NoDoubleBooking(st)
    ensures WellFormed(AddResource(st, name, kind)) && NoDoubleBooking(AddResource(st, name, kind))
  {
  }

  /** Delete a resource together with its allocations. */
  function DeleteResource(st: Store, resourceId: nat): (r: Result<Store>)
    ensures r.Err? <==> resourceId !in st.resources
    ensures r.Err? ==> r.error == NotFound
    ensures r.Ok? ==>
      && r.value.resources == st.resources - {resourceId}
      && (forall a :: a in r.value.allocations <==> a in st.allocations && a.resourceId != resourceId)
      && r.value.events == st.events
  {
    if resourceId !in st.resources then Err(NotFound)
    else Ok(st.(resources := st.resources - {resourceId},
                allocations := KeepAllocations(st.allocations, (a: Allocation) => a.resourceId != resourceId)))
  }

  lemma DeleteResourceKeepsInvariant(st: Store, resourceId: nat)
    requires WellFormed(st) && NoDoubleBooking(st)
    requires DeleteResource(st, resourceId).Ok?
    ensures WellFormed(DeleteResource(st, resourceId).value) && NoDoubleBooking(DeleteResource(st, resourceId).value)
  {
  }
}
