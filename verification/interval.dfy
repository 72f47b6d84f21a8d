/** Half-open time intervals [start, end) and the one overlap test the
    scheduler uses wherever two bookings are compared. */
module Interval {

  /** The overlap test exactly as the scheduler writes it: two intervals
      overlap unless the first ends no later than the second starts, or the
      first starts no earlier than the second ends. */
  predicate Overlaps(start1: int, end1: int, start2: int, end2: int): (r: bool)
    ensures r <==> start1 < end2 && start2 < end1
  {
    !(end1 <= start2 || start1 >= end2)
  }

  /** Instant `t` lies in [start, end). */
  predicate Contains(start: int, end: int, t: int) {
    start <= t < end
  }

  /** The test does not depend on which interval is named first. */
  lemma OverlapsSymmetric(start1: int, end1: int, start2: int, end2: int)
    ensures Overlaps(start1, end1, start2, end2) <==> Overlaps(start2, end2, start1, end1)
  {
  }

  /** Intervals that merely touch, [a, b) and [b, c), never overlap, in
      either order. */
  lemma TouchingIntervalsDisjoint(a: int, b: int, c: int)
    ensures !Overlaps(a, b, b, c)
    ensures !Overlaps(b, c, a, b)
  {
  }

  /** For non-empty intervals the test means exactly "some instant lies in
      both", the half-open reading of "overlap". */
  lemma OverlapsIffSharedInstant(start1: int, end1: int, start2: int, end2: int)
    requires start1 < end1 && start2 < end2
    ensures Overlaps(start1, end1, start2, end2)
        <==> exists t :: Contains(start1, end1, t) && Contains(start2, end2, t)
  {
    if Overlaps(start1, end1, start2, end2) {
      var t := if start1 < start2 then start2 else start1;
      assert Contains(start1, end1, t) && Contains(start2, end2, t);
    }
  }

  /** A non-empty interval overlaps itself, so a pairwise scan must never
      compare an allocation with itself. */
  lemma NonEmptyOverlapsItself(start: int, end: int)
    requires start < end
    ensures Overlaps(start, end, start, end)
  {
  }
}
