/** The aligned-set generator over the cyclic calendar, where moments count
    units of the duration component: what each direction returns, in terms of
    field values alone. */
module CyclicTimeTable {
  import opened Wrappers
  import opened Intervals
  import opened Schedules
  import opened Calendars
  import opened CommonTimeTable

  /** A supported component with a non-empty cycle `lo..<lo+count` and
      allowed values inside it. */
  predicate ValidRule(comp: Component, lo: int, count: int, values: set<int>)
  {
    && comp in SupportedComponents
    && count > 0
    && forall x :: x in values ==> lo <= x < lo + count
  }

  /** The unit `shift` units away from `m`, if the shift was found and the
      moment it reaches is representable. */
  function Step(m: Moment, shift: Option<int>): Option<DateInterval>
  {
    match shift
    case None => None
    case Some(k) => if DistantPast <= m + k <= DistantFuture then Some(Interval(m + k, m + k + 1)) else None
  }

  /** The aligned-set rule on the cyclic calendar, stated on field values and
      moments alone: nothing for an empty set; otherwise the unit of `m` when
      its field value is allowed, and the unit reached by the wraparound
      search before and after. */
  function CyclicGenerator(comp: Component, lo: int, count: int, origin: Moment, values: set<int>): Generator
    requires ValidRule(comp, lo, count, values)
  {
    (m: Moment, direction: Direction) =>
      var r: ValidRange := IntRange(lo, lo + count);
      var v := Field(lo, count, origin, m);
      if values == {} then None
      else
        match direction
        case On => if v in values then Some(Interval(m, m + 1)) else None
        case FirstAfter => Step(m, FirstMatchingShift(r, values, v, 1))
        case FirstBefore => Step(m, FirstMatchingShift(r, values, v, -1))
  }

  /** Reaching a shift on the cyclic calendar is the plain step. */
  lemma ReachIsStep(comp: Component, lo: int, count: int, origin: Moment, unit: Component, m: Moment, shift: Option<int>)
    requires count > 0
    ensures Reach(CyclicCalendar(comp, lo, count, origin), unit, m, shift) == Step(m, shift)
  {
  }

  /** `scheduleGeneratorFrom` accepts the rule on the cyclic calendar, and the
      generator it builds answers, in every direction, what `CyclicGenerator`
      prescribes on field values. */
  lemma GeneratorEvaluates(comp: Component, lo: int, count: int, origin: Moment, values: set<int>, m: Moment, direction: Direction)
    requires ValidRule(comp, lo, count, values)
    ensures ScheduleGeneratorFrom(CyclicCalendar(comp, lo, count, origin), comp, values).Success?
    ensures ScheduleGeneratorFrom(CyclicCalendar(comp, lo, count, origin), comp, values).value(m, direction)
      == CyclicGenerator(comp, lo, count, origin, values)(m, direction)
  {
    var cal := CyclicCalendar(comp, lo, count, origin);
    var r: ValidRange := IntRange(lo, lo + count);
    var unit := DurationComponent(comp);
    assert cal.maximumRange(comp) == Some(r);
    assert ComponentAccepted(cal, comp);
    assert ValuesInRange(r, values);
    var g := ScheduleGeneratorFrom(cal, comp, values).value;
    if values != {} {
      assert g(m, direction) == Evaluate(cal, comp, r, values, m, direction);
      assert cal.component(comp, m) == Field(lo, count, origin, m);
      var v := Field(lo, count, origin, m);
      match direction
      case On =>
      case FirstAfter => ReachIsStep(comp, lo, count, origin, unit, m, FirstMatchingShift(r, values, v, 1));
      case FirstBefore => ReachIsStep(comp, lo, count, origin, unit, m, FirstMatchingShift(r, values, v, -1));
    }
  }

  /** The cyclic calendar's field `t` units after `m`, for `t` within one
      cycle, is the search's candidate `t` steps away. The cyclic calendar
      computes the same field whatever component it is asked for, so its
      shift law is used at `Hour`; any component would do. */
  lemma FieldAtShiftIsCandidate(lo: int, count: int, origin: Moment, m: Moment, inc: Increment, j: int)
    requires count > 0 && 1 <= j <= count
    ensures Field(lo, count, origin, m + Signed(inc, j)) ==
      Candidate(IntRange(lo, lo + count), Field(lo, count, origin, m), Signed(inc, j), inc)
  {
    CyclicCalendarFieldShift(Hour, lo, count, origin, m, Signed(inc, j));
    CandidateWrapsOnce(IntRange(lo, lo + count), Field(lo, count, origin, m), inc, j);
  }

  /** First-after returns the unit of the nearest later moment whose field
      value is allowed, at most one cycle ahead; it exists whenever the set is
      non-empty and that moment is representable. */
  lemma FirstAfterIsNearestLater(comp: Component, lo: int, count: int, origin: Moment, values: set<int>, m: Moment)
    requires ValidRule(comp, lo, count, values)
    ensures var a := CyclicGenerator(comp, lo, count, origin, values)(m, FirstAfter);
      a.Some? ==>
        && m < a.value.start <= m + count
        && a.value.end == a.value.start + 1
        && Field(lo, count, origin, a.value.start) in values
        && forall k :: m < k < a.value.start ==> Field(lo, count, origin, k) !in values
    ensures values != {} && DistantPast <= m && m + count <= DistantFuture ==>
      CyclicGenerator(comp, lo, count, origin, values)(m, FirstAfter).Some?
  {
    ShiftAfterIsNearestLater(lo, count, origin, values, m);
  }

  /** The step the forward search finds is to the nearest later moment whose
      field value is allowed, and there is one when the set is non-empty. */
  lemma ShiftAfterIsNearestLater(lo: int, count: int, origin: Moment, values: set<int>, m: Moment)
    requires count > 0 && forall x :: x in values ==> lo <= x < lo + count
    ensures var a := Step(m, FirstMatchingShift(IntRange(lo, lo + count), values, Field(lo, count, origin, m), 1));
      a.Some? ==>
        && m < a.value.start <= m + count
        && a.value.end == a.value.start + 1
        && Field(lo, count, origin, a.value.start) in values
        && forall k :: m < k < a.value.start ==> Field(lo, count, origin, k) !in values
    ensures values != {} && DistantPast <= m && m + count <= DistantFuture ==>
      Step(m, FirstMatchingShift(IntRange(lo, lo + count), values, Field(lo, count, origin, m), 1)).Some?
  {
    var r: ValidRange := IntRange(lo, lo + count);
    var v := Field(lo, count, origin, m);
    if values != {} {
      SearchSucceeds(r, values, v, 1);
      var s := FirstMatchingShift(r, values, v, 1).value;
      FieldAtShiftIsCandidate(lo, count, origin, m, 1, s);
      forall k | m < k < m + s
        ensures Field(lo, count, origin, k) !in values
      {
        FieldAtShiftIsCandidate(lo, count, origin, m, 1, k - m);
        assert m + Signed(1, k - m) == k;
      }
    }
  }

  /** First-before returns the unit of the nearest earlier moment whose field
      value is allowed, at most one cycle back; it exists whenever the set is
      non-empty and that moment is representable. */
  lemma FirstBeforeIsNearestEarlier(comp: Component, lo: int, count: int, origin: Moment, values: set<int>, m: Moment)
    requires ValidRule(comp, lo, count, values)
    ensures var b := CyclicGenerator(comp, lo, count, origin, values)(m, FirstBefore);
      b.Some? ==>
        && m - count <= b.value.start < m
        && b.value.end == b.value.start + 1
        && Field(lo, count, origin, b.value.start) in values
        && forall k :: b.value.start < k < m ==> Field(lo, count, origin, k) !in values
    ensures values != {} && DistantPast <= m - count && m <= DistantFuture ==>
      CyclicGenerator(comp, lo, count, origin, values)(m, FirstBefore).Some?
  {
    ShiftBeforeIsNearestEarlier(lo, count, origin, values, m);
  }

  /** The step the backward search finds is to the nearest earlier moment
      whose field value is allowed, and there is one when the set is
      non-empty. */
  lemma ShiftBeforeIsNearestEarlier(lo: int, count: int, origin: Moment, values: set<int>, m: Moment)
    requires count > 0 && forall x :: x in values ==> lo <= x < lo + count
    ensures var b := Step(m, FirstMatchingShift(IntRange(lo, lo + count), values, Field(lo, count, origin, m), -1));
      b.Some? ==>
        && m - count <= b.value.start < m
        && b.value.end == b.value.start + 1
        && Field(lo, count, origin, b.value.start) in values
        && forall k :: b.value.start < k < m ==> Field(lo, count, origin, k) !in values
    ensures values != {} && DistantPast <= m - count && m <= DistantFuture ==>
      Step(m, FirstMatchingShift(IntRange(lo, lo + count), values, Field(lo, count, origin, m), -1)).Some?
  {
    var r: ValidRange := IntRange(lo, lo + count);
    var v := Field(lo, count, origin, m);
    if values != {} {
      SearchSucceeds(r, values, v, -1);
      var s := FirstMatchingShift(r, values, v, -1).value;
      FieldAtShiftIsCandidate(lo, count, origin, m, -1, -s);
      forall k | m + s < k < m
        ensures Field(lo, count, origin, k) !in values
      {
        FieldAtShiftIsCandidate(lo, count, origin, m, -1, m - k);
        assert m + Signed(-1, m - k) == k;
      }
    }
  }

  /** The elements around a moment are ordered: the one before ends no later
      than the one on it starts, and the one after starts no earlier than the
      one on it ends. */
  lemma NeighboursAreOrdered(comp: Component, lo: int, count: int, origin: Moment, values: set<int>, m: Moment)
    requires ValidRule(comp, lo, count, values)
    ensures var g := CyclicGenerator(comp, lo, count, origin, values);
      && (g(m, FirstBefore).Some? && g(m, On).Some? ==> g(m, FirstBefore).value.end <= g(m, On).value.start)
      && (g(m, FirstAfter).Some? && g(m, On).Some? ==> g(m, On).value.end <= g(m, FirstAfter).value.start)
      && (g(m, FirstBefore).Some? && g(m, FirstAfter).Some? ==> g(m, FirstBefore).value.end < g(m, FirstAfter).value.start)
  {
    FirstAfterIsNearestLater(comp, lo, count, origin, values, m);
    FirstBeforeIsNearestEarlier(comp, lo, count, origin, values, m);
  }

  /** First-after always moves strictly forward, so chaining it terminates
      against any finite bound. */
  lemma CyclicGeneratorIsMonotone(comp: Component, lo: int, count: int, origin: Moment, values: set<int>)
    requires ValidRule(comp, lo, count, values)
    ensures Monotone(CyclicGenerator(comp, lo, count, origin, values))
  {
    forall d: Moment {
      FirstAfterIsNearestLater(comp, lo, count, origin, values, d);
    }
  }

  /** When only the field value of `m` is allowed, the search in direction
      `inc` goes one full cycle from `m`. */
  lemma SingleValueFullCycle(comp: Component, lo: int, count: int, origin: Moment, m: Moment, inc: Increment)
    requires comp in SupportedComponents && count > 0
    requires DistantPast <= m - count && m + count <= DistantFuture
    ensures CyclicGenerator(comp, lo, count, origin, {Field(lo, count, origin, m)})(m, if inc == 1 then FirstAfter else FirstBefore)
      == Some(Interval(m + Signed(inc, count), m + Signed(inc, count) + 1))
  {
    var r: ValidRange := IntRange(lo, lo + count);
    OnlySelfIsFullCycle(r, Field(lo, count, origin, m), inc);
  }

  /** The four-probe emptiness test is exact for aligned-set generators: the
      generator is empty precisely when no value is allowed. */
  lemma EmptyExactlyWhenNoValues(comp: Component, lo: int, count: int, origin: Moment, values: set<int>)
    requires ValidRule(comp, lo, count, values)
    requires count <= DistantFuture - DistantPast
    ensures IsEmptyGenerator(CyclicGenerator(comp, lo, count, origin, values)) <==> values == {}
  {
    FirstAfterIsNearestLater(comp, lo, count, origin, values, DistantPast);
  }
}
