# Event scheduling: allocation and conflict-detection engine

A Dafny model of the rule core of the `event_schedule` Flask application.
Organisations register events (time intervals) and resources (rooms,
equipment, staff), allocate resources to events, and ask for a list of
double bookings and a utilization report. The rules sit inside the route
handlers of `event_schedule/app.py`. Here they are pure functions over an
explicit store value, with no web framework or database.

- `interval.dfy` (`Interval`): the half-open overlap test `not (end1 <= start2 or start1 >= end2)`.
- `store.dfy` (`Store`): the entities `Event`, `Resource` and `Allocation`; the store; the error kinds; well-formedness; the central invariant `NoDoubleBooking`; and the join of a resource's allocations with their events (`BookingsOf`).
- `conflict_check.dfy` (`ConflictCheck`): `check_conflict`.
- `entities.dfy` (`Entities`): creating, editing and deleting events, and creating and deleting resources.
- `allocations.dfy` (`Allocations`): `allocate` and `deallocate`.
- `conflict_report.dfy` (`ConflictReport`): the `/conflicts` diagnostic.
- `utilization.dfy` (`Utilization`): the `/report` aggregation.

Times are integer seconds. A mutating operation returns `Ok(newStore)` or
`Err(e)`, where `e` is `NotFound`, `InvalidInterval`, `DuplicateAllocation`
or `SchedulingConflict(resource, otherEvent)`. An `Err` produces no new
store, so the caller's store stays exactly as it was. This matches the
source, where a rejected request returns before `db.session.commit()`.

The central invariant is `Store.NoDoubleBooking`: two different
allocations of the same resource never hold overlapping events. Every
mutating operation either keeps it, together with the structural
`Store.WellFormed`, or fails. On a well-formed store the conflicts report is
empty exactly when the invariant holds.

## Model

| member | source | states |
|---|---|---|
| Interval.Overlaps | event_schedule/app.py:29 | the test `not (end1 <= start2 or start1 >= end2)` holds exactly when each interval starts before the other ends |
| Interval.OverlapsSymmetric | event_schedule/app.py:29 | the overlap test gives the same answer whichever interval is named first |
| Interval.TouchingIntervalsDisjoint | event_schedule/app.py:196 | intervals that only touch, `[a,b)` and `[b,c)`, never overlap, in either order |
| Interval.OverlapsIffSharedInstant | event_schedule/app.py:29 | for non-empty intervals the test holds exactly when some instant lies in both (the half-open meaning of overlap) |
| Interval.NonEmptyOverlapsItself | event_schedule/app.py:193-194 | a non-empty interval overlaps itself, which is why the pairwise scan only compares an allocation with later ones |
| Store.EmptyStoreIsConsistent | event_schedule/app.py:12-13 | the freshly created, empty database is well formed and has no double booking |
| Store.BookingsOf | event_schedule/app.py:190-191 | a resource's allocations joined with their events contain exactly the allocations on that resource whose event exists, each paired with its event, and no allocation twice |
| Store.ResourceOrder | event_schedule/app.py:187 | the reports visit every resource of a well-formed store once, in strictly ascending id order |
| ConflictCheck.CheckConflict | event_schedule/app.py:15-31 | returns None exactly when no allocation on the resource, other than one of the excluded event, has an event overlapping the candidate; any event it returns belongs to such a blocking allocation |
| ConflictCheck.ScanFrom | event_schedule/app.py:26-31 | the scan from position i finds nothing exactly when no allocation from i on blocks, and otherwise returns the event of one that blocks |
| ConflictCheck.UnchangedEventNeverConflicts | event_schedule/app.py:80-84 | on a consistent store, re-checking an allocated event on its own resource with itself excluded finds no conflict |
| Entities.AddEvent | event_schedule/app.py:53-60 | fails with InvalidInterval exactly when start >= end; otherwise adds one event under the next id with the given fields, and nothing else changes |
| Entities.AddEventKeepsInvariant | event_schedule/app.py:57-60 | a new event takes an id no event has, and the store stays well formed and free of double bookings |
| Entities.RevalidateFrom | event_schedule/app.py:81-86 | finds nothing exactly when, for every allocation of the edited event, no other event's allocation on that resource overlaps the new interval; a reported failure names such a resource and the event it collides with |
| Entities.EditEvent | event_schedule/app.py:68-88 | a missing event gives NotFound and an empty interval gives InvalidInterval; the edit succeeds exactly when the new interval fits every resource the event holds, and any other failure is a SchedulingConflict naming the resource and the colliding event; on success only that event's fields change |
| Entities.EditEventKeepsInvariant | event_schedule/app.py:76-88 | a successful edit leaves the store well formed and free of double bookings |
| Entities.DeleteEvent | event_schedule/app.py:94-100 | a missing event gives NotFound; otherwise exactly that event is gone, every other event keeps its fields, and exactly the allocations of other events remain |
| Entities.DeleteEventKeepsInvariant | event_schedule/app.py:94-100 | deleting an event (with its allocations) keeps the store consistent |
| Entities.AddResource | event_schedule/app.py:110-117 | adds one resource under the next id with the given name and type, and nothing else changes |
| Entities.AddResourceKeepsInvariant | event_schedule/app.py:110-117 | adding a resource keeps the store consistent |
| Entities.DeleteResource | event_schedule/app.py:131-137 | a missing resource gives NotFound; otherwise exactly that resource is gone, every other resource keeps its fields, and exactly the allocations of other resources remain |
| Entities.DeleteResourceKeepsInvariant | event_schedule/app.py:131-137 | deleting a resource (with its allocations) keeps the store consistent |
| Allocations.Allocate | event_schedule/app.py:151-171 | a missing event or resource gives NotFound; an existing pair gives DuplicateAllocation before any conflict check; it succeeds exactly when no allocation on the resource holds an overlapping event, and any other failure is a SchedulingConflict naming an allocated, overlapping event; success appends exactly one allocation for the pair and changes nothing else |
| Allocations.AllocateKeepsInvariant | event_schedule/app.py:162-171 | the appended allocation has a fresh id, and the store stays well formed and free of double bookings |
| Allocations.FindAllocation | event_schedule/app.py:177 | finds nothing exactly when no allocation from position i on has the id, and otherwise a position holding it |
| Allocations.Deallocate | event_schedule/app.py:177-179 | fails with NotFound exactly when no allocation has the id; otherwise exactly one allocation is removed, and with unique ids the remaining ones are exactly those with other ids |
| Allocations.DeallocateKeepsInvariant | event_schedule/app.py:177-179 | removing an allocation keeps the store consistent |
| ConflictReport.SortByStart | event_schedule/app.py:191 | the bookings ordered by start hold the same bookings, each as many times, and as many of them |
| ConflictReport.SortByStartCorrect | event_schedule/app.py:190-191 | the ordering by start is a permutation with the same elements, ascending by start time, keeping distinct allocations distinct |
| ConflictReport.SortByStartStable | event_schedule/app.py:191 | bookings already in order of start come back unchanged, so the ordering keeps ties in their given order |
| ConflictReport.SortByStartKeepsTies | event_schedule/app.py:191 | two bookings with the same start keep their order |
| ConflictReport.PairsFrom | event_schedule/app.py:193-201 | the scan emits a pair exactly when it is (bs[k], bs[l]) for positions k < l whose events overlap |
| ConflictReport.RowFrom | event_schedule/app.py:194-196 | the inner loop emits (bs[i], bs[k]) exactly for the later positions k whose events overlap bs[i] |
| ConflictReport.ResourcePairSound | event_schedule/app.py:190-196 | every pair the scan of one resource emits joins two different allocations of that resource whose events overlap, the earlier-starting one first |
| ConflictReport.ResourcePairComplete | event_schedule/app.py:190-196 | every two different allocations of one resource whose events overlap are emitted by that resource's scan, in one order or the other |
| ConflictReport.ResourceConflictSound | event_schedule/app.py:189-201 | a conflict listed for a resource pairs the events of two different allocations of that resource, overlapping, the first starting no later |
| ConflictReport.Conflicts | event_schedule/app.py:185-203 | every entry of the report names a resource of the store and two overlapping events; ConflictsSound, ConflictsComplete and ConflictsEmptyIffNoDoubleBooking state exactly which entries there are |
| ConflictReport.ConflictsSound | event_schedule/app.py:189-201 | every reported conflict names a resource of the store and two different allocations of it, never of two resources, whose events overlap, in order of start |
| ConflictReport.ConflictsComplete | event_schedule/app.py:189-201 | every two different allocations of one resource with overlapping events are reported, in one order or the other |
| ConflictReport.ConflictsEmptyIffNoDoubleBooking | event_schedule/app.py:189-203 | on a well-formed store the report is empty exactly when no resource is double-booked |
| ConflictReport.PairsNeverReversed | event_schedule/app.py:193-194 | over distinct bookings no pair is emitted together with its reversal |
| ConflictReport.ConflictsReportEachPairOnce | event_schedule/app.py:189-201 | no conflict is listed twice, and none is listed again with its two events swapped |
| Utilization.WindowBookings | event_schedule/app.py:223-225 | keeps exactly the bookings whose event starts at or after the window start and ends at or before the window end, so an event starting before the window is left out entirely |
| Utilization.CountStartingAfter | event_schedule/app.py:231-232 | the upcoming count never exceeds the number of counted bookings |
| Utilization.ResourceUsage | event_schedule/app.py:227-232 | the loop's total is the sum of (end - start) over the counted bookings and its upcoming count is the number of them starting after now, at most their number |
| Utilization.Report | event_schedule/app.py:213-238 | one row per resource in id order, whose total and upcoming count are taken over exactly the bookings inside the window ending at 23:59:59 of the end date |
| Utilization.TotalBoundedBySpan | event_schedule/app.py:227-230 | pairwise non-overlapping, non-empty events inside [lo, hi] add up to at most hi - lo |
| Utilization.ReportTotalWithinWindow | event_schedule/app.py:214-230 | on a consistent store a resource's booked time in the window is at most the window's length, and zero when the window is empty |
| Utilization.EventEndingAtMidnightExcluded | event_schedule/app.py:215-216 | an event ending at midnight after the last date of the window is not counted, because the window closes at 23:59:59 |

## Left out

- Flask routing, form parsing (`strptime`), templates, `flash` messages and redirects. The model receives typed values and returns typed results.
- The SQLAlchemy session, queries and commits, and app and database setup. The store is an explicit value; a commit is returning `Ok`.
- `datetime.now()`: the current time is the parameter `now`.
- Utilization.Report: takes one `now` for the whole report, while the source reads the clock again for each resource (app.py line 221 is inside the loop).
- Floating-point hours and `round(total_hours, 2)`. Totals are integer seconds; conversion to hours and rounding are presentation.
- The check-then-act race between `check_conflict` and the commit. The model is sequential.
- The listing views (`index`, `events`, `resources`, `allocations`) and resource name and type edits. They contain no rules.
- Cascade deletion is an assumption. `models.py`, where it would be configured, is not part of this model. `DeleteEvent` and `DeleteResource` delete the allocations of the deleted event or resource with it.
- Id assignment. `models.py` is not part of this model. The store hands out ids from counters starting at 1 and never reuses them. A SQLite table without AUTOINCREMENT may reuse the largest deleted id.
- Resource order. The reports walk resources in ascending id order. `Resource.query.all()` has no ORDER BY, so this is the usual SQLite order, not a promise.
- Ties in the conflicts report. `ConflictReport.SortByStart` is stable, so allocations with equal start times stay in allocation order. `order_by(Event.start_time)` at app.py line 191 leaves the order of ties open, and none of the report's other properties depend on it.
- Messages. The source formats the conflicting resource's name and the event's title and times into a message. The model's error carries the resource id and the conflicting event.
- Non-empty titles. The code does not check that a title is non-empty, so the model does not either.
- `check_conflict` returns the first match in query order. The query has no ORDER BY, so `ConflictCheck.CheckConflict` only promises some blocking event. The model scans in allocation order.
- `if exclude_event_id:` tests the exclusion for truthiness, so an id of 0 excludes nothing. `ConflictCheck.Excludes` models this. Well-formed stores use ids from 1, so an edit always excludes its own event.
