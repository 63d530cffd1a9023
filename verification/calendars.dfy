/** The calendar the aligned-set generator consults. Foundation's `Calendar`
    is a foreign collaborator, so it is modelled as a record of functions
    (field ranges, field extraction, containing interval, shifting), plus the
    laws a cyclic field obeys and one concrete calendar that satisfies them. */
module Calendars {
  import opened Wrappers
  import opened Intervals

  /** Foundation's `Calendar.Component`. */
  datatype Component =
    | Era | Year | YearForWeekOfYear | Quarter | Month | WeekOfYear | WeekOfMonth
    | Weekday | WeekdayOrdinal | Day | Hour | Minute | Second | Nanosecond
    | CalendarField | TimeZoneField

  /** Swift's half-open `Range<Int>`: `lower..<upper`. */
  datatype IntRange = IntRange(lower: int, upper: int) {
    function Count(): int { upper - lower }
    predicate IsEmpty() { upper == lower }
    predicate Contains(x: int) { lower <= x < upper }
  }

  /** Swift guarantees a range's lower bound does not exceed its upper bound. */
  type ValidRange = r: IntRange | r.lower <= r.upper witness IntRange(0, 0)

  /** The calendar operations the generator calls:
      `maximumRange(of:)`, `minimumRange(of:)`, `component(_:from:)`,
      `dateInterval(of:for:)` and `date(byAdding:value:to:)`. */
  datatype CalendarAdapter = CalendarAdapter(
    maximumRange: Component -> Option<ValidRange>,
    minimumRange: Component -> Option<ValidRange>,
    component: (Component, Moment) -> int,
    dateInterval: (Component, Moment) -> Option<DateInterval>,
    dateByAdding: (Component, int, Moment) -> Option<Moment>)

  /** `x` wrapped into the non-empty range `r`, seen as a cycle. */
  function Cyclic(r: ValidRange, x: int): (y: int)
    requires r.Count() > 0
    ensures r.Contains(y)
  {
    r.lower + (x - r.lower) % r.Count()
  }

  /** Every value the calendar extracts for `comp` lies in `r`. */
  ghost predicate FieldInRange(cal: CalendarAdapter, comp: Component, r: ValidRange)
  {
    forall m: Moment :: r.Contains(cal.component(comp, m))
  }

  /** Shifting a moment by `k` units of `unit` advances the `comp` field by
      `k`, wrapped around `r`. */
  ghost predicate ShiftAdvancesField(cal: CalendarAdapter, comp: Component, unit: Component, r: ValidRange)
    requires r.Count() > 0
  {
    forall k: int, m: Moment :: cal.dateByAdding(unit, k, m).Some? ==>
      cal.component(comp, cal.dateByAdding(unit, k, m).value) == Cyclic(r, cal.component(comp, m) + k)
  }

  /** The `unit`-long interval containing a moment starts at a moment with the
      same `comp` field. */
  ghost predicate ContainingKeepsField(cal: CalendarAdapter, comp: Component, unit: Component)
  {
    forall m: Moment :: cal.dateInterval(unit, m).Some? ==>
      cal.component(comp, cal.dateInterval(unit, m).value.start) == cal.component(comp, m)
  }

  /** The laws a field must obey for the aligned-set search to be sound. */
  ghost predicate CyclicField(cal: CalendarAdapter, comp: Component, unit: Component, r: ValidRange)
  {
    && r.Count() > 0
    && FieldInRange(cal, comp, r)
    && ShiftAdvancesField(cal, comp, unit, r)
    && ContainingKeepsField(cal, comp, unit)
  }

  /** The field value of moment `m` when the field cycles through
      `lo..<lo+count` and takes the value `lo` at `origin`. */
  function Field(lo: int, count: int, origin: Moment, m: Moment): int
    requires count > 0
  {
    lo + (m - origin) % count
  }

  /** A calendar whose moments count units of the duration component: the
      field `field` cycles through `lo..<lo+count`, taking the value `lo` at
      `origin`; every unit is the interval `[m, m+1)`; shifting fails outside
      the representable span `[DistantPast, DistantFuture]`. */
  function CyclicCalendar(field: Component, lo: int, count: int, origin: Moment): CalendarAdapter
    requires count > 0
  {
    var range: ValidRange := IntRange(lo, lo + count);
    CalendarAdapter(
      c => if c == field then Some(range) else None,
      c => if c == field then Some(range) else None,
      (c, m) => Field(lo, count, origin, m),
      (c, m) => Some(Interval(m, m + 1)),
      (c, k, m) => if DistantPast <= m + k <= DistantFuture then Some(m + k) else None)
  }

  /** `x` is `q * c + rem` with `0 <= rem < c` only when `rem` is `x % c`. */
  lemma ModUnique(x: int, c: int, q: int, rem: int)
    requires c > 0 && 0 <= rem < c && x == q * c + rem
    ensures x % c == rem
  {
    var q0, r0 := x / c, x % c;
    assert x == q0 * c + r0;
    if q0 > q {
      MulAtLeast(q0 - q, c);
      assert false;
    } else if q0 < q {
      MulAtLeast(q - q0, c);
      assert false;
    }
  }

  lemma MulAtLeast(a: int, c: int)
    requires a >= 1 && c > 0
    ensures a * c >= c
  {
  }

  /** Adding `k` after reducing modulo `c` lands on the same residue. */
  lemma ModAddAbsorb(a: int, k: int, c: int)
    requires c > 0
    ensures (a % c + k) % c == (a + k) % c
  {
    var q, r0 := a / c, a % c;
    var q1, r1 := (r0 + k) / c, (r0 + k) % c;
    assert a + k == (q + q1) * c + r1;
    ModUnique(a + k, c, q + q1, r1);
  }

  /** The cyclic calendar's field at a shifted moment is the wrapped sum. */
  lemma CyclicCalendarFieldShift(field: Component, lo: int, count: int, origin: Moment, m: Moment, k: int)
    requires count > 0
    ensures var cal := CyclicCalendar(field, lo, count, origin);
      cal.component(field, m + k) == Cyclic(IntRange(lo, lo + count), cal.component(field, m) + k)
  {
    ModAddAbsorb(m - origin, k, count);
  }

  /** The cyclic calendar satisfies the cyclic-field laws for its field. */
  lemma CyclicCalendarIsCyclic(field: Component, unit: Component, lo: int, count: int, origin: Moment)
    requires count > 0
    ensures CyclicField(CyclicCalendar(field, lo, count, origin), field, unit, IntRange(lo, lo + count))
  {
    var cal := CyclicCalendar(field, lo, count, origin);
    var r: ValidRange := IntRange(lo, lo + count);
    forall k: int, m: Moment | cal.dateByAdding(unit, k, m).Some?
      ensures cal.component(field, cal.dateByAdding(unit, k, m).value) == Cyclic(r, cal.component(field, m) + k)
    {
      CyclicCalendarFieldShift(field, lo, count, origin, m, k);
    }
  }
}
