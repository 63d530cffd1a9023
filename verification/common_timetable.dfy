/** `scheduleGeneratorFrom(associatedCalendar:timetableComponent:onSchedule:)`:
    validates a calendar component and a set of allowed field values, then
    builds a generator that matches the moments whose field value is allowed,
    searching around the field's cycle for the nearest allowed value. */
module CommonTimeTable {
  import opened Wrappers
  import opened Intervals
  import opened Schedules
  import opened Calendars

  datatype CommonTimeTableGeneratorError = UnsupportedComponent | ValuesOutOfRange

  const SupportedComponents: set<Component> := {Month, Weekday, Hour}

  /** The unit in which matched elements are measured and shifted: a weekday
      is matched by whole days. */
  function DurationComponent(comp: Component): Component
  {
    if comp == Weekday then Day else comp
  }

  /** The component is supported, and the calendar reports for it a non-empty
      maximum range equal to its minimum range. */
  predicate ComponentAccepted(cal: CalendarAdapter, comp: Component)
  {
    && comp in SupportedComponents
    && cal.maximumRange(comp).Some?
    && !cal.maximumRange(comp).value.IsEmpty()
    && cal.minimumRange(comp) == cal.maximumRange(comp)
  }

  /** The search direction: `1` for first-after, `-1` for first-before. */
  type Increment = i: int | i == 1 || i == -1 witness 1

  /** The shift of magnitude `j` in the direction `inc`. */
  function Signed(inc: Increment, j: int): int
  {
    if inc == 1 then j else -j
  }

  /** The field value `shift` steps away from `v`, brought back into `r` by a
      single subtraction (going forward) or addition (going backward) of the
      range's count. */
  function Candidate(r: ValidRange, v: int, shift: int, inc: Increment): (c: int)
    ensures c == v + shift || c == v + shift - Signed(inc, r.Count())
    ensures r.Contains(v + shift) ==> c == v + shift
    ensures inc == 1 && r.Contains(v) && 0 <= shift <= r.Count() ==> r.Contains(c)
    ensures inc == -1 && r.Contains(v) && -r.Count() <= shift <= 0 ==> r.Contains(c)
  {
    var incremented := v + shift;
    if inc == 1 && incremented >= r.upper then incremented - r.Count()
    else if inc == -1 && incremented < r.lower then incremented + r.Count()
    else incremented
  }

  /** The candidate `j` steps away from `v` in direction `inc` is allowed. */
  predicate Hits(r: ValidRange, values: set<int>, v: int, inc: Increment, j: int)
  {
    Candidate(r, v, Signed(inc, j), inc) in values
  }

  /** For a value inside the range and a shift of at most one full cycle, one
      wrap puts the candidate back inside the range, where it is the cyclic
      successor (or predecessor) of the value. */
  lemma CandidateWrapsOnce(r: ValidRange, v: int, inc: Increment, j: int)
    requires r.Contains(v) && 1 <= j <= r.Count()
    ensures r.Contains(Candidate(r, v, Signed(inc, j), inc))
    ensures Candidate(r, v, Signed(inc, j), inc) == Cyclic(r, v + Signed(inc, j))
  {
    var c, x := Candidate(r, v, Signed(inc, j), inc), v + Signed(inc, j) - r.lower;
    if inc == 1 && x >= r.Count() {
      ModUnique(x, r.Count(), 1, c - r.lower);
    } else if inc == -1 && x < 0 {
      ModUnique(x, r.Count(), -1, c - r.lower);
    } else {
      ModUnique(x, r.Count(), 0, c - r.lower);
    }
  }

  /** The least magnitude in `j..count` whose candidate is allowed. */
  function SearchFrom(r: ValidRange, values: set<int>, v: int, inc: Increment, j: nat): (found: Option<nat>)
    requires j >= 1
    ensures found.Some? ==> j <= found.value <= r.Count() && Hits(r, values, v, inc, found.value)
    ensures found.Some? ==> forall t :: j <= t < found.value ==> !Hits(r, values, v, inc, t)
    ensures found.None? ==> forall t :: j <= t <= r.Count() ==> !Hits(r, values, v, inc, t)
    decreases r.Count() + 1 - j
  {
    if j > r.Count() then None
    else if Hits(r, values, v, inc, j) then Some(j)
    else SearchFrom(r, values, v, inc, j + 1)
  }

  /** The wraparound search: the least shift in `1..count` (first-after) or
      the greatest in `-count..-1` (first-before) whose wrapped field value is
      allowed; none when no shift within one cycle is. */
  function FirstMatchingShift(r: ValidRange, values: set<int>, v: int, inc: Increment): (s: Option<int>)
    ensures inc == 1 && s.Some? ==>
      && 1 <= s.value <= r.Count()
      && Candidate(r, v, s.value, inc) in values
      && forall t :: 1 <= t < s.value ==> Candidate(r, v, t, inc) !in values
    ensures inc == -1 && s.Some? ==>
      && -r.Count() <= s.value <= -1
      && Candidate(r, v, s.value, inc) in values
      && forall t :: s.value < t <= -1 ==> Candidate(r, v, t, inc) !in values
    ensures s.None? <==> forall j :: 1 <= j <= r.Count() ==> !Hits(r, values, v, inc, j)
  {
    match SearchFrom(r, values, v, inc, 1)
    case None => None
    case Some(j) =>
      forall t | inc == 1 && 1 <= t < j ensures Candidate(r, v, t, inc) !in values {
        assert !Hits(r, values, v, inc, t);
      }
      forall t | inc == -1 && 0 < t + j && t <= -1 ensures Candidate(r, v, t, inc) !in values {
        assert !Hits(r, values, v, inc, -t);
      }
      Some(Signed(inc, j))
  }

  /** All allowed values lie inside the range. */
  predicate ValuesInRange(r: ValidRange, values: set<int>)
  {
    forall x :: x in values ==> r.Contains(x)
  }

  /** From a value inside the range, a non-empty set of in-range values is
      always reached within one cycle, in either direction. */
  lemma {:induction false} SearchSucceeds(r: ValidRange, values: set<int>, v: int, inc: Increment)
    requires values != {} && ValuesInRange(r, values) && r.Contains(v)
    ensures FirstMatchingShift(r, values, v, inc).Some?
  {
    if forall y :: y !in values {
      assert false;
    }
    var x :| x in values;
    var j := if inc == 1 then (if x > v then x - v else x - v + r.Count())
             else (if x < v then v - x else v - x + r.Count());
    assert Candidate(r, v, Signed(inc, j), inc) == x;
    assert Hits(r, values, v, inc, j);
  }

  /** When the only allowed value is the current one, the search goes round
      the whole cycle: the shift is the range's count. */
  lemma {:induction false} OnlySelfIsFullCycle(r: ValidRange, v: int, inc: Increment)
    requires r.Contains(v)
    ensures FirstMatchingShift(r, {v}, v, inc) == Some(Signed(inc, r.Count()))
  {
    assert Hits(r, {v}, v, inc, r.Count());
  }

  /** The search loop of the closure `scheduleGeneratorFrom` returns, as
      written: the guard is
      `shift <= count`, which never stops a backward search, so the backward
      search ends only because it finds an allowed value. */
  method SearchAsWritten(r: ValidRange, values: set<int>, v: int, inc: Increment) returns (found: Option<int>)
    requires inc == -1 ==> values != {} && ValuesInRange(r, values) && r.Contains(v)
    ensures found == FirstMatchingShift(r, values, v, inc)
  {
    ghost var target := FirstMatchingShift(r, values, v, inc);
    if inc == -1 {
      SearchSucceeds(r, values, v, inc);
    }
    var shift := inc;
    while shift <= r.Count()
      invariant inc == 1 ==> 1 <= shift
      invariant inc == 1 ==> forall t :: 1 <= t < shift ==> Candidate(r, v, t, inc) !in values
      invariant inc == 1 && target.Some? ==> shift <= target.value
      invariant inc == -1 ==> target.Some? && target.value <= shift <= -1
      invariant inc == -1 ==> forall t :: shift < t <= -1 ==> Candidate(r, v, t, inc) !in values
      decreases if inc == 1 then r.Count() - shift + 1 else shift - target.value
    {
      var candidate := Candidate(r, v, shift, inc);
      if candidate in values {
        assert Hits(r, values, v, inc, if inc == 1 then shift else -shift);
        return Some(shift);
      }
      shift := shift + inc;
    }
    return None;
  }

  /** The interval reached by shifting `m` by `shift` units; absent when
      there is no shift or the calendar cannot perform it. */
  function Reach(cal: CalendarAdapter, unit: Component, m: Moment, shift: Option<int>): Option<DateInterval>
  {
    match shift
    case None => None
    case Some(k) =>
      match cal.dateByAdding(unit, k, m)
      case None => None
      case Some(d) => cal.dateInterval(unit, d)
  }

  /** The generator built for a non-empty set of allowed values. It answers
      `on` only for an allowed field value, and before or after only when an
      allowed value lies within one cycle in that direction and the calendar
      can shift to it; an empty set never answers. */
  function Evaluate(cal: CalendarAdapter, comp: Component, r: ValidRange, values: set<int>,
                    m: Moment, direction: Direction): (e: Option<DateInterval>)
    ensures direction == On ==>
      (e.Some? <==> cal.component(comp, m) in values && cal.dateInterval(DurationComponent(comp), m).Some?)
    ensures direction == On && e.Some? ==> e == cal.dateInterval(DurationComponent(comp), m)
    ensures direction == FirstAfter && e.Some? ==>
      && FirstMatchingShift(r, values, cal.component(comp, m), 1).Some?
      && cal.dateByAdding(DurationComponent(comp), FirstMatchingShift(r, values, cal.component(comp, m), 1).value, m).Some?
    ensures direction == FirstBefore && e.Some? ==>
      && FirstMatchingShift(r, values, cal.component(comp, m), -1).Some?
      && cal.dateByAdding(DurationComponent(comp), FirstMatchingShift(r, values, cal.component(comp, m), -1).value, m).Some?
    ensures (&& direction == FirstAfter
             && FirstMatchingShift(r, values, cal.component(comp, m), 1).Some?
             && cal.dateByAdding(DurationComponent(comp), FirstMatchingShift(r, values, cal.component(comp, m), 1).value, m).Some?) ==>
      e == cal.dateInterval(DurationComponent(comp),
             cal.dateByAdding(DurationComponent(comp), FirstMatchingShift(r, values, cal.component(comp, m), 1).value, m).value)
    ensures (&& direction == FirstBefore
             && FirstMatchingShift(r, values, cal.component(comp, m), -1).Some?
             && cal.dateByAdding(DurationComponent(comp), FirstMatchingShift(r, values, cal.component(comp, m), -1).value, m).Some?) ==>
      e == cal.dateInterval(DurationComponent(comp),
             cal.dateByAdding(DurationComponent(comp), FirstMatchingShift(r, values, cal.component(comp, m), -1).value, m).value)
    ensures values == {} ==> e.None?
  {
    var unit := DurationComponent(comp);
    var v := cal.component(comp, m);
    match direction
    case On => if v in values then cal.dateInterval(unit, m) else None
    case FirstAfter => Reach(cal, unit, m, FirstMatchingShift(r, values, v, 1))
    case FirstBefore => Reach(cal, unit, m, FirstMatchingShift(r, values, v, -1))
  }

  /** Validates the component and the values, then returns the generator. */
  function ScheduleGeneratorFrom(cal: CalendarAdapter, comp: Component, values: set<int>)
    : (result: Result<Generator, CommonTimeTableGeneratorError>)
    ensures result.Failure? && result.error == UnsupportedComponent <==> !ComponentAccepted(cal, comp)
    ensures result.Failure? && result.error == ValuesOutOfRange <==>
      ComponentAccepted(cal, comp) && !ValuesInRange(cal.maximumRange(comp).value, values)
    ensures result.Success? && values == {} ==> forall m, direction :: result.value(m, direction).None?
    ensures result.Success? && values != {} ==> forall m, direction ::
      result.value(m, direction) == Evaluate(cal, comp, cal.maximumRange(comp).value, values, m, direction)
  {
    if !ComponentAccepted(cal, comp) then Failure(UnsupportedComponent)
    else
      var r := cal.maximumRange(comp).value;
      if exists x :: x in values && !r.Contains(x) then Failure(ValuesOutOfRange)
      else if values == {} then Success(EmptyGenerator)
      else Success((m: Moment, direction: Direction) => Evaluate(cal, comp, r, values, m, direction))
  }

  /** A component outside month, weekday and hour is rejected whatever the
      calendar and the values. */
  lemma UnsupportedComponentRejected(cal: CalendarAdapter, comp: Component, values: set<int>)
    requires comp !in SupportedComponents
    ensures ScheduleGeneratorFrom(cal, comp, values).Failure?
    ensures ScheduleGeneratorFrom(cal, comp, values).error == UnsupportedComponent
  {
  }

  /** One past the maximum value of an accepted component is rejected. */
  lemma OnePastMaximumRejected(cal: CalendarAdapter, comp: Component, values: set<int>)
    requires ComponentAccepted(cal, comp)
    requires cal.maximumRange(comp).value.upper in values
    ensures ScheduleGeneratorFrom(cal, comp, values).Failure?
    ensures ScheduleGeneratorFrom(cal, comp, values).error == ValuesOutOfRange
  {
  }

  /** The whole range of an accepted component, as allowed values, is
      accepted and matches every moment. */
  lemma FullRangeMatchesEveryMoment(cal: CalendarAdapter, comp: Component, values: set<int>, m: Moment)
    requires ComponentAccepted(cal, comp)
    requires forall x :: x in values <==> cal.maximumRange(comp).value.Contains(x)
    requires FieldInRange(cal, comp, cal.maximumRange(comp).value)
    requires cal.dateInterval(DurationComponent(comp), m).Some?
    ensures ScheduleGeneratorFrom(cal, comp, values).Success?
    ensures ScheduleGeneratorFrom(cal, comp, values).value(m, On).Some?
  {
    var r := cal.maximumRange(comp).value;
    assert r.Contains(r.lower);
    assert r.Contains(cal.component(comp, m));
  }

  /** `On` answers exactly for the moments whose field value is allowed, with
      the calendar's containing interval; the whole range as allowed values
      matches every moment. */
  lemma OnMatchesAllowedField(cal: CalendarAdapter, comp: Component, values: set<int>, m: Moment)
    requires ScheduleGeneratorFrom(cal, comp, values).Success?
    requires forall d: Moment :: cal.dateInterval(DurationComponent(comp), d).Some?
    ensures ScheduleGeneratorFrom(cal, comp, values).value(m, On).Some? <==> cal.component(comp, m) in values
    ensures cal.component(comp, m) in values ==>
      ScheduleGeneratorFrom(cal, comp, values).value(m, On) == cal.dateInterval(DurationComponent(comp), m)
  {
  }

  /** Under the cyclic-field laws, every element the generator produces, in
      any direction, starts at a moment whose field value is allowed. */
  lemma MatchedFieldIsAllowed(cal: CalendarAdapter, comp: Component, values: set<int>, m: Moment, direction: Direction)
    requires ScheduleGeneratorFrom(cal, comp, values).Success?
    requires CyclicField(cal, comp, DurationComponent(comp), cal.maximumRange(comp).value)
    ensures ScheduleGeneratorFrom(cal, comp, values).value(m, direction).Some? ==>
      cal.component(comp, ScheduleGeneratorFrom(cal, comp, values).value(m, direction).value.start) in values
  {
    var g := ScheduleGeneratorFrom(cal, comp, values).value;
    var r := cal.maximumRange(comp).value;
    var unit := DurationComponent(comp);
    var v := cal.component(comp, m);
    if values != {} && direction != On && g(m, direction).Some? {
      var inc: Increment := if direction == FirstAfter then 1 else -1;
      var k := FirstMatchingShift(r, values, v, inc).value;
      var d := cal.dateByAdding(unit, k, m).value;
      CandidateWrapsOnce(r, v, inc, if inc == 1 then k else -k);
      assert cal.component(comp, d) == Cyclic(r, v + k);
      assert g(m, direction) == cal.dateInterval(unit, d);
    }
  }
}
