/** Moments and date intervals. A moment is an integer count of time units;
    the two sentinels stand for Foundation's `Date.distantPast` and
    `Date.distantFuture` (their offsets, in seconds, from the reference date). */
module Intervals {

  type Moment = int

  const DistantPast: Moment := -63114076800
  const DistantFuture: Moment := 64092211200

  /** A span of time between two moments, compared by both endpoints. */
  datatype Interval = Interval(start: Moment, end: Moment)

  /** Foundation's `DateInterval`, which never ends before it starts. */
  type DateInterval = i: Interval | i.start <= i.end witness Interval(0, 0)
}
