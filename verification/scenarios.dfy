/** Concrete schedules from the repository's tests, checked against the
    general results: a weekday rule, a midnight rule enumerated over three
    days, a finite schedule of unit elements, and single-element generators. */
module Scenarios {
  import opened Wrappers
  import opened Intervals
  import opened Schedules
  import opened Calendars
  import opened CommonTimeTable
  import opened CyclicTimeTable
  import opened Helpers
  import opened AnySchedules

  /** Mondays, Wednesdays and Fridays, with Foundation's Gregorian weekday
      numbering `1..<8` (Sunday is 1); day 0 is a Sunday. */
  function MonWedFri(): Generator
  {
    CyclicGenerator(Weekday, 1, 7, 0, {2, 4, 6})
  }

  /** On a Tuesday (day 2) nothing is scheduled. */
  lemma TuesdayIsNotScheduled()
    ensures MonWedFri()(2, On) == None
  {
  }

  /** The first element after a Tuesday is the next day, a Wednesday. */
  lemma AfterTuesdayComesWednesday()
    ensures MonWedFri()(2, FirstAfter) == Some(Interval(3, 4))
  {
    FirstAfterIsNearestLater(Weekday, 1, 7, 0, {2, 4, 6}, 2);
    assert Field(1, 7, 0, 3) == 4;
  }

  /** The first element before a Tuesday is the previous day, a Monday. */
  lemma BeforeTuesdayComesMonday()
    ensures MonWedFri()(2, FirstBefore) == Some(Interval(1, 2))
  {
    FirstBeforeIsNearestEarlier(Weekday, 1, 7, 0, {2, 4, 6}, 2);
    assert Field(1, 7, 0, 1) == 2;
  }

  /** Midnight only, on an hour-counted calendar whose hour 0 is a midnight. */
  function Midnights(): Generator
  {
    CyclicGenerator(Hour, 0, 24, 0, {0})
  }

  /** From each of the first three midnights, the next element is the
      following midnight. */
  lemma NextMidnight(k: int)
    requires 0 <= k <= 2
    ensures Midnights()(24 * k, FirstAfter) == Some(Interval(24 * k + 24, 24 * k + 25))
  {
    FirstAfterIsNearestLater(Hour, 0, 24, 0, {0}, 24 * k);
    var o := Midnights()(24 * k, FirstAfter);
    assert o.Some?;
    var a := o.value;
    assert 24 * k < a.start <= 24 * k + 24 && Field(0, 24, 0, a.start) == 0;
    NextMultiple(k, a.start);
    assert a == Interval(24 * k + 24, 24 * k + 25);
  }

  /** The only multiple of a day in the day after the `k`-th midnight is the
      next midnight. */
  lemma NextMultiple(k: int, x: int)
    requires 24 * k < x <= 24 * k + 24 && Field(0, 24, 0, x) == 0
    ensures x == 24 * k + 24
  {
    if x < 24 * k + 24 {
      ModUnique(x, 24, k, x - 24 * k);
      assert false;
    }
  }

  /** The chain of first-after calls from the midnight at the start of the
      three days. */
  lemma MidnightChain()
    ensures var seed := RangeSeed(Midnights(), Interval(0, 72));
      && seed == Some(Interval(0, 1))
      && Iterate(Midnights(), seed, 1) == Some(Interval(24, 25))
      && Iterate(Midnights(), seed, 2) == Some(Interval(48, 49))
      && Iterate(Midnights(), seed, 3) == Some(Interval(72, 73))
  {
    NextMidnight(0);
    NextMidnight(1);
    NextMidnight(2);
  }

  /** Enumerating midnights over three days yields the three midnights, in
      order; the fourth, whose hour ends after the interval, is left out. */
  lemma ThreeDaysOfMidnights()
    ensures Monotone(Midnights())
    ensures RangeElements(Midnights(), Interval(0, 72)) == [Interval(0, 1), Interval(24, 25), Interval(48, 49)]
  {
    var g, iv := Midnights(), Interval(0, 72);
    CyclicGeneratorIsMonotone(Hour, 0, 24, 0, {0});
    MidnightChain();
    var r := RangeElements(g, iv);
    assert |r| == 3;
  }

  /** The unit element starting at `t`. */
  function Unit(t: Moment): DateInterval
  {
    Interval(t, t + 1)
  }

  /** A finite schedule of `count` consecutive unit elements from `first`,
      the unit-length counterpart of the tests' finite schedule. Like it,
      `on` uses the closed period `[first, first + count]`, so the moment
      that ends the period answers with the unit starting there. */
  function FiniteGenerator(first: Moment, count: nat): Generator
  {
    (d: Moment, direction: Direction) =>
      match direction
      case On => if count > 0 && first <= d <= first + count then Some(Unit(d)) else None
      case FirstAfter =>
        if d < first && count > 0 then Some(Unit(first))
        else if first <= d && d + 1 < first + count then Some(Unit(d + 1))
        else None
      case FirstBefore =>
        if first + count <= d && count > 0 then Some(Unit(first + count - 1))
        else if first < d < first + count then Some(Unit(d - 1))
        else None
  }

  /** The finite schedule: empty when it has no element, containing the
      moments of its closed period, and answering every range request with
      a "not implemented" failure. */
  function FiniteSchedule(first: Moment, count: nat): Schedule
  {
    Schedule(count == 0, d => count > 0 && first <= d <= first + count, FiniteGenerator(first, count),
             Custom(_ => Failure(ScheduleError("notImplemented"))))
  }

  /** Chaining first-after from the first element visits every element once
      and then stops. */
  lemma {:induction false} FiniteIteration(first: Moment, count: nat, k: nat)
    requires count > 0
    ensures Iterate(FiniteGenerator(first, count), Some(Unit(first)), k)
      == if k < count then Some(Unit(first + k)) else None
    decreases k
  {
    if k > 0 {
      FiniteIteration(first, count, k - 1);
    }
  }

  /** A finite schedule of `count` elements, generated from any moment not
      after its first element, yields exactly its `count` elements in order,
      however many more are pulled. */
  lemma FiniteScheduleYieldsCount(first: Moment, count: nat, start: Moment, n: nat)
    requires start <= first && count <= n
    ensures Generate(FiniteSchedule(first, count), start, None, n) == seq(count, k => Unit(first + k))
  {
    var s := FiniteSchedule(first, count);
    var r := Generate(s, start, None, n);
    if count > 0 {
      assert Seed(s.generator, start) == Some(Unit(first));
      forall k: nat {
        FiniteIteration(first, count, k);
      }
      var seed := Seed(s.generator, start);
      assert Iterate(s.generator, seed, count) == None;
      assert |r| <= count;
      if |r| < count {
        assert false;
      }
    }
  }

  /** The test double of the type-erased schedule's tests: one element, on
      for the moments it contains (ends included), before and after for
      the moments past its end and before its start. */
  function SingleElementGenerator(e: DateInterval): Generator
  {
    (d: Moment, direction: Direction) =>
      match direction
      case On => if e.start <= d <= e.end then Some(e) else None
      case FirstBefore => if d > e.end then Some(e) else None
      case FirstAfter => if d < e.start then Some(e) else None
  }

  /** Whether the element starts at the distant past or an hour later, the
      two probes see it; the empty generator is classed empty. Over the whole
      representable span, the range is the element alone. */
  lemma SingleElementIsNotEmpty(offset: int)
    requires 0 <= offset <= 3600
    ensures !FromBody(SingleElementGenerator(Interval(DistantPast + offset, DistantPast + offset + 3600))).isEmpty
    ensures FromBody(EmptyGenerator).isEmpty
    ensures Monotone(SingleElementGenerator(Interval(DistantPast + offset, DistantPast + offset + 3600)))
    ensures RangeElements(SingleElementGenerator(Interval(DistantPast + offset, DistantPast + offset + 3600)),
                          Interval(DistantPast, DistantFuture))
      == [Interval(DistantPast + offset, DistantPast + offset + 3600)]
  {
    var e := Interval(DistantPast + offset, DistantPast + offset + 3600);
    var g := SingleElementGenerator(e);
    var iv := Interval(DistantPast, DistantFuture);
    assert RangeSeed(g, iv) == Some(e);
    assert Iterate(g, Some(e), 1) == None;
  }
}
