# Schedule — a Dafny model of the generator core

This project models the core of the Swift package `Schedule`. A **schedule** is
anything that answers, for a moment and a search direction (`on`,
`firstAfter`, `firstBefore`), the date interval it schedules there. That
answer is the **generator**, a function `(Date, Direction) -> DateInterval?`.
On top of the generator the package builds:

- `scheduleGeneratorFrom(associatedCalendar:timetableComponent:onSchedule:)`:
  validates a calendar component (month, weekday or hour) and a set of allowed
  field values. It then returns a generator that matches the moments whose
  field value is allowed, and finds the nearest allowed value before or after
  a moment by walking once around the field's cycle;
- `_sequentiallyCalculateScheduleElements(in:for:)`: every element inside a
  closed date interval, found by chaining `firstAfter` calls from a seed
  element;
- `Schedule.generate(start:end:)`: a lazy sequence of elements, optionally
  clipped at an end date;
- `isEmptyGenerator` (four sentinel probes) and `emptyGenerator`;
- `AnySchedule`, the type-erased schedule. It is built either from a concrete
  schedule, which it copies, or from a bare generator. A generator-built one
  classes itself empty with two probes, and its range computation is either
  the empty one or the sequential calculation.

Modules, one per file:

| module | file | models |
|---|---|---|
| `Wrappers` | wrappers.dfy | Swift's `T?` with `??`; `throws` as `Result` |
| `Intervals` | intervals.dfy | `Date` as an integer moment, `DateInterval`, the two sentinels |
| `Schedules` | schedules.dfy | directions, generators, the `Schedule` protocol, `isEmptyGenerator`, `emptyGenerator`, `generate(start:end:)` |
| `Calendars` | calendars.dfy | the calendar operations the generator calls, the laws of a cyclic field, and one calendar obeying them |
| `CommonTimeTable` | common_timetable.dfy | `scheduleGeneratorFrom` and its wraparound search |
| `CyclicTimeTable` | cyclic_timetable.dfy | that generator on the cyclic calendar, described by field values alone |
| `Helpers` | helpers.dfy | `_sequentiallyCalculateScheduleElements` |
| `AnySchedules` | any_schedules.dfy | `AnySchedule`: both initialisers, `contains`, `schedule(matching:direction:)`, and the lists its range computations deliver |
| `Scenarios` | scenarios.dfy | concrete schedules from the repository's tests |

Some properties need an independent definition to compare against. For these
the model uses:

- `Iterate`, the *manual iteration*: the seed, then `firstAfter` from each
  element's start. It is the reference for both the range calculator and the
  sequence producer.
- The calendar laws `CyclicField`. They are what makes the wraparound search
  find the nearest matching moment.

## Model

| member | source | states |
|---|---|---|
| CommonTimeTable.ScheduleGeneratorFrom | Sources/Schedule/Helpers/CommonTimeTableGenerator.swift:18-86 | Throws `unsupportedCompoment` (sic) exactly when the component is not month/weekday/hour, or the calendar's maximum range is missing, empty or differs from the minimum range. Throws `valuesOutOfRange` exactly when the component is accepted but some value lies outside the range. An accepted empty set yields a generator that never answers; otherwise every answer is the per-direction evaluation |
| CommonTimeTable.FirstMatchingShift | Sources/Schedule/Helpers/CommonTimeTableGenerator.swift:52-84 | The forward search returns the least shift in 1..count whose wrapped candidate is allowed; the backward search returns the greatest in -count..-1. The search finds nothing exactly when no shift within one cycle hits |
| CommonTimeTable.SearchFrom | Sources/Schedule/Helpers/CommonTimeTableGenerator.swift:58-82 | From step `j`, the result is the first step up to `count` whose candidate is allowed, none before it hits, and none at all when it returns nothing |
| CommonTimeTable.SearchAsWritten | Sources/Schedule/Helpers/CommonTimeTableGenerator.swift:58-84 | The loop as written, with guard `shift <= count` and one wrap per candidate, returns the same shift as the bounded search. A backward search terminates when the set is non-empty and in range and the current value is in range |
| CommonTimeTable.Candidate | Sources/Schedule/Helpers/CommonTimeTableGenerator.swift:62-72 | The candidate is the shifted value, wrapped at most once and only against the direction of travel. An in-range shifted value is not wrapped. From an in-range value, any shift of at most one cycle in the direction of travel lands in range |
| CommonTimeTable.Evaluate | Sources/Schedule/Helpers/CommonTimeTableGenerator.swift:46-85 | `on` answers exactly when the field value is allowed and the calendar has a containing interval, and then with that interval. Before or after answers exactly when the search finds an allowed value within one cycle in that direction and the calendar can shift by the shift found, and the calendar has a containing duration-unit interval for the shifted moment; the answer is that interval. An empty set never answers |
| CommonTimeTable.CandidateWrapsOnce | Sources/Schedule/Helpers/CommonTimeTableGenerator.swift:62-72 | For an in-range value and a shift of at most one cycle, the single subtraction or addition of `count` lands in range, on the cyclic successor or predecessor of the value |
| CommonTimeTable.SearchSucceeds | Sources/Schedule/Helpers/CommonTimeTableGenerator.swift:30-42 | A non-empty set of in-range values is always reached within one cycle from an in-range value, in both directions |
| CommonTimeTable.OnlySelfIsFullCycle | Sources/Schedule/Helpers/CommonTimeTableGenerator.swift:58-80 | When the current value is the only allowed one, the search goes the full cycle: the shift is `±count` |
| CommonTimeTable.UnsupportedComponentRejected | Sources/Schedule/Helpers/CommonTimeTableGenerator.swift:16-28 | A component outside month, weekday and hour throws `unsupportedCompoment`, whatever the calendar and the values |
| CommonTimeTable.OnePastMaximumRejected | Sources/Schedule/Helpers/CommonTimeTableGenerator.swift:30-38 | For an accepted component, the range's upper bound as a value throws `valuesOutOfRange` |
| CommonTimeTable.FullRangeMatchesEveryMoment | Sources/Schedule/Helpers/CommonTimeTableGenerator.swift:30-51 | The whole range as allowed values is accepted and matches every moment `on` |
| CommonTimeTable.OnMatchesAllowedField | Sources/Schedule/Helpers/CommonTimeTableGenerator.swift:44-51 | Direction `on` answers exactly for moments whose field value is allowed, and answers with the calendar's containing duration-unit interval (days for weekdays) |
| CommonTimeTable.MatchedFieldIsAllowed | Sources/Schedule/Helpers/CommonTimeTableGenerator.swift:46-85 | On a calendar obeying the cyclic-field laws, every element returned in any direction starts at a moment whose field value is allowed |
| CyclicTimeTable.GeneratorEvaluates | Sources/Schedule/Helpers/CommonTimeTableGenerator.swift:18-86 | On the cyclic calendar, a valid rule is accepted, and the generator returned agrees in every direction with the description by field values alone |
| CyclicTimeTable.FirstAfterIsNearestLater | Sources/Schedule/Helpers/CommonTimeTableGenerator.swift:52-80 | `firstAfter` returns the unit of the nearest later moment whose field is allowed, at most one cycle ahead, skipping nothing allowed. It exists when the set is non-empty and the whole cycle ahead of the moment is representable |
| CyclicTimeTable.FirstBeforeIsNearestEarlier | Sources/Schedule/Helpers/CommonTimeTableGenerator.swift:52-80 | `firstBefore` returns the unit of the nearest earlier moment whose field is allowed, at most one cycle back, skipping nothing allowed. It exists when the set is non-empty and the whole cycle behind the moment is representable |
| CyclicTimeTable.ShiftAfterIsNearestLater | Sources/Schedule/Helpers/CommonTimeTableGenerator.swift:58-80 | The forward shift found, applied to the moment, reaches the nearest later allowed moment, and one is found for a non-empty set |
| CyclicTimeTable.ShiftBeforeIsNearestEarlier | Sources/Schedule/Helpers/CommonTimeTableGenerator.swift:58-80 | The backward shift found reaches the nearest earlier allowed moment, and one is found for a non-empty set |
| CyclicTimeTable.NeighboursAreOrdered | GregorianCommonTimeTable/Tests/GregorianCommonTimeTableTests/CommonTimeTableGeneratorTests.swift:305-315 | The `firstBefore` element ends no later than the `on` element starts; the `on` element ends no later than the `firstAfter` element starts; `firstBefore` ends strictly before `firstAfter` starts |
| CyclicTimeTable.CyclicGeneratorIsMonotone | Sources/Schedule/Helpers/CommonTimeTableGenerator.swift:52-80 | `firstAfter` always answers strictly after the moment asked about, so chaining it moves forward |
| CyclicTimeTable.SingleValueFullCycle | Sources/Schedule/Helpers/CommonTimeTableGenerator.swift:58-80 | With the moment's own value as the only allowed value, `firstAfter` and `firstBefore` land exactly one cycle away |
| CyclicTimeTable.EmptyExactlyWhenNoValues | Sources/Schedule/Schedule.swift:178-183 | `isEmptyGenerator` of an aligned-set generator holds exactly when the allowed set is empty |
| Helpers.RangeElements | Sources/Schedule/Helpers/Helpers.swift:41-67 | The elements returned all lie within the closed interval. They are the manual iteration from the seed, cut at the first candidate that is missing or out of bounds; each is the `firstAfter` of its predecessor, and the starts strictly increase |
| Helpers.RangeSeed | Sources/Schedule/Helpers/Helpers.swift:43-46 | An element on the interval's start that does not begin before it is the seed; otherwise the seed is the first element after the interval's start. Under a forward-moving generator the seed never starts before the interval |
| Helpers.ChainIsIteration | Sources/Schedule/Helpers/Helpers.swift:52-66 | The loop's output from a candidate equals the manual iteration from it, up to the first candidate that is missing or out of bounds |
| Helpers.ChainIncreases | Sources/Schedule/Helpers/Helpers.swift:55-64 | The starts of the collected elements strictly increase |
| Helpers.SequentiallyCalculateScheduleElements | Sources/Schedule/Helpers/Helpers.swift:41-67 | The imperative calculation returns exactly the elements characterised by `RangeElements` |
| Helpers.CollectChain | Sources/Schedule/Helpers/Helpers.swift:52-66 | The `while` loop, run from a candidate, returns the in-bounds chain from that candidate |
| Helpers.EmptyGeneratorHasNoElements | Sources/Schedule/Helpers/Helpers.swift:48-50 | With `emptyGenerator` no seed exists, and no interval holds any element |
| Helpers.IterateStaysAfterFirst | Sources/Schedule/Helpers/Helpers.swift:55-64 | Under a generator that moves forward, every element of the manual iteration starts no earlier than the element it started from |
| Helpers.BoundedGenerateAgreesWithRange | Sources/Schedule/Schedule.swift:136-167 | When the element on the start does not begin before it, `generate(start:end:)` over an interval and the range calculator yield the same elements, up to the number pulled |
| Schedules.Generate | Sources/Schedule/Schedule.swift:119-169 | An empty schedule yields nothing. Otherwise each yielded element is the manual iteration from the seed (on the start, else first after it, moved past the start once) and lies within the end bound. Each element is the `firstAfter` of the previous one, and the sequence stops only at a missing or out-of-bounds candidate |
| Schedules.Pulls | Sources/Schedule/Schedule.swift:144-167 | `n` pulls of the iterator yield at most `n` elements, each the manual iteration from the pending candidate and within the end bound, and fewer only when the clipped candidate is missing |
| Schedules.GenerateIsLazy | Sources/Schedule/Schedule.swift:152-167 | Pulling fewer elements yields a prefix of pulling more, and falls short only when the sequence has ended |
| Schedules.GenerateFromDistantPastIsManualIteration | Tests/ScheduleTests/ScheduleTests.swift:130-156 | From the distant past without an end, the sequence is the manual iteration from the element on the distant past, else first after it, and it ends exactly where the iteration does |
| Schedules.IterateFromSuccessor | Tests/ScheduleTests/ScheduleTests.swift:137-145 | Iterating `k+1` steps from an element is iterating `k` steps from its `firstAfter` |
| Schedules.IsEmptyGenerator | Sources/Schedule/Schedule.swift:178-183 | A generator is classed empty exactly when it answers nothing `on` and `firstAfter` the distant past and `on` and `firstBefore` the distant future |
| Schedules.Seed | Sources/Schedule/Schedule.swift:136-142 | An element on the start that does not begin before it is the first element. One that begins before the start is replaced once by the first element after its own start. With nothing on the start, the first element after the start is the first element, unless it begins before the start, in which case it too is replaced once by the first element after its own start. With nothing on the start and a forward-moving generator, the first element is the first one after the start, and under such a generator the first element never starts before the element on the start |
| Schedules.Clip | Sources/Schedule/Schedule.swift:144-150 | A candidate survives exactly when it exists and neither starts nor ends past the end bound, and survives unchanged; without an end bound nothing is removed |
| Schedules.EmptyGeneratorIsEmpty | Sources/Schedule/Schedule.swift:178-186 | `emptyGenerator` answers nothing in any direction, and `isEmptyGenerator` classes it empty |
| AnySchedules.ErasedScheduleDelegates | Sources/Schedule/AnySchedule.swift:26-71 | `contains` holds exactly when the boxed generator answers `on`, and `schedule(matching:direction:)` gives the boxed generator's answers. The boxed generator is the given closure, or the concrete schedule's generator when wrapping one |
| AnySchedules.ConcreteContainsIsBypassed | Sources/Schedule/AnySchedule.swift:59-62 | A wrapped concrete schedule's `contains` agrees with the concrete schedule's own `contains` at every moment exactly when that `contains` agrees with the concrete generator's `on` answers at every moment |
| AnySchedules.ClaimingEverythingWrapsToNothing | Sources/Schedule/AnySchedule.swift:59-62 | A concrete schedule whose `contains` claims every moment while its generator answers nothing contains no moment once wrapped |
| AnySchedules.FromConcrete | Sources/Schedule/AnySchedule.swift:26-30 | Wrapping keeps the concrete schedule's emptiness and generator answers, and delivers the concrete schedule's range results. Its `contains` is the concrete generator's `on` test, not the concrete `contains` |
| AnySchedules.ProbeEmpty | Sources/Schedule/AnySchedule.swift:53 | The two-probe test classes a generator empty exactly when it answers nothing both `on` and `firstAfter` the distant past |
| AnySchedules.ScheduleIn | Sources/Schedule/AnySchedule.swift:73-131 | The empty and sequential range computations always deliver `success`, the empty one with no elements. The sequential one delivers elements inside the interval, with strictly increasing starts, each the `firstAfter` answer for its predecessor's start; they are exactly the elements the sequential calculation collects. A custom computation's answer is passed through unchanged |
| AnySchedules.FromBody | Sources/Schedule/AnySchedule.swift:50-56 | The wrapped schedule answers with the generator; its emptiness is the two-probe test. An empty one gets the empty range computation, a non-empty one the sequential computation over the same generator |
| AnySchedules.BodyRangeIsSequentialCalculation | Sources/Schedule/AnySchedule.swift:83-131 | For every interval, a generator-built schedule delivers `success` with exactly the sequential calculator's elements when not empty, and `success([])` when empty |
| AnySchedules.FourProbeEmptyIsTwoProbeEmpty | Sources/Schedule/AnySchedule.swift:53 | Any generator `isEmptyGenerator` classes empty is classed empty by `AnySchedule(body:)` |
| AnySchedules.TwoProbesMissBackwardOnlyGenerator | Sources/Schedule/AnySchedule.swift:53 | The two probes are a heuristic: a generator reachable only by `firstBefore` from the distant future is classed empty by `AnySchedule(body:)`, though `isEmptyGenerator` says it is not |
| Scenarios.TuesdayIsNotScheduled | Sources/Schedule/Helpers/CommonTimeTableGenerator.swift:51 | A Monday-Wednesday-Friday weekday rule matches nothing `on` a Tuesday |
| Scenarios.AfterTuesdayComesWednesday | Sources/Schedule/Helpers/CommonTimeTableGenerator.swift:52-80 | Under that rule, `firstAfter` a Tuesday is the next day's unit |
| Scenarios.BeforeTuesdayComesMonday | Sources/Schedule/Helpers/CommonTimeTableGenerator.swift:52-80 | Under that rule, `firstBefore` a Tuesday is the previous day's unit |
| Scenarios.NextMidnight | Sources/Schedule/Helpers/CommonTimeTableGenerator.swift:52-80 | On an hour-counted calendar with hour 0 allowed, `firstAfter` each of the first three midnights (hours 0, 24 and 48) is the next midnight's hour |
| Scenarios.ThreeDaysOfMidnights | Sources/Schedule/Helpers/Helpers.swift:41-67 | Over three days the range calculator returns the three midnight hours in order; the fourth, which ends after the interval, is left out |
| Scenarios.FiniteScheduleYieldsCount | Tests/ScheduleTests/ScheduleTests.swift:115-128 | A finite schedule of `count` consecutive unit elements, generated from any moment not after its first element, yields exactly those `count` elements in order, however many more are pulled |
| Scenarios.SingleElementIsNotEmpty | Tests/ScheduleTests/AnyScheduleTests.swift:106-154 | The empty generator makes an empty `AnySchedule`. One-hour single-element generators starting at the distant past or an hour later make a non-empty one, and over the whole representable span the range calculator returns just that element |

`CommonTimeTable.DurationComponent` (Sources/Schedule/Helpers/CommonTimeTableGenerator.swift:44,
weekdays are matched and shifted by whole days) and `CommonTimeTable.Reach`
(lines 75-79 of the same file: shift by the shift found, then take the
containing interval) have no row of their own; the `Evaluate` and
`OnMatchesAllowedField` rows state their effect.

## Left out

- Dispatch queues and completion handlers (`dispatchResultCompletion`, `dispatchCompletion`, `DispatchQueue.global().async`) are concurrency. The model keeps only the `Result` value delivered to the completion (`AnySchedules.ScheduleIn`).
- Foundation's `Calendar` is a foreign collaborator. It is a record of functions (`Calendars.CalendarAdapter`). The properties that depend on calendar behaviour assume the cyclic-field laws (`Calendars.CyclicField`). `Calendars.CyclicCalendar`, a calendar counted in duration units, satisfies them (`Calendars.CyclicCalendarIsCyclic`). Gregorian month lengths, time zones and daylight-saving transitions are not modelled.
- `Date` is an integer moment. Sub-unit times and floating-point `TimeInterval` arithmetic are not modelled. The sentinels use the second offsets of `distantPast` and `distantFuture`.
- GregorianCommonTimeTable/Sources/GregorianCommonTimeTable/CommonGregorianTimetable.swift is not part of this model. It is a separate schedule type with its own copy of the wraparound search over the Gregorian calendar; it does not call `scheduleGeneratorFrom`.
- The test doubles (`MockSchedule`, `MockSimpleFiniteSchedule`) are not modelled as such. `Scenarios.FiniteSchedule` and `Scenarios.SingleElementGenerator` are unit-length counterparts used for the scenarios: elements last one moment instead of an hour, and the finite schedule's `on`, like the double's, uses the closed period. The package manifests are not modelled.
- CommonTimeTable.FirstMatchingShift: the search is bounded to one cycle in both directions. In Sources/Schedule/Helpers/CommonTimeTableGenerator.swift the guard `shift <= componentRange.count` never fails for negative shifts, so the backward loop ends only by finding a value. That matters only if the calendar reports a field value outside the component's maximum range. For such a value the backward search agrees with the loop whenever the loop finds a match within one cycle (range `1..<8`: allowed `{6}` at field value 0 gives shift -1 in both, allowed `{7}` at field value 9 gives shift -2 in both). Otherwise the loop runs on (a value below the range) or answers more than one cycle back (a value above it: allowed `{1}` at field value 12 gives shift -11), where the model answers none. `CommonTimeTable.SearchAsWritten` models the loop under the precondition of an in-range field value; `CommonTimeTable.SearchSucceeds` shows the bounded search always succeeds there.
- Helpers.SequentiallyCalculateScheduleElements: requires the generator to move forward (`Schedules.Monotone`). For such generators the loop of Sources/Schedule/Helpers/Helpers.swift terminates for every interval, because each candidate starts later than the previous one. The Swift loop also stops whenever a candidate is missing or out of bounds, whatever the generator, but a generator that keeps answering in-bounds elements without moving forward would make it loop forever. The model needs `Monotone` for its termination measure and does not cover other generators. The same requirement applies to `Helpers.RangeElements`, `Helpers.CollectChain` and the sequential range computation of `AnySchedules.ScheduleIn`.
- Schedules.Generate: the `fatalError` for an end before the start is a precondition. The possibly infinite sequence is modelled as its first `n` elements.
- The `Schedule` protocol's `contains(_:)` is a field of `Schedules.Schedule`, set freely for concrete schedules. `AnySchedule` ignores it and asks the generator instead (`AnySchedules.ConcreteContainsIsBypassed`). Nothing relates a concrete schedule's `contains` to its generator, since the protocol only documents that relation.
- AnySchedules.ScheduleIn: a concrete schedule's own range computation (`Custom`) is a pure function of the interval. Calls on queues, mutable counters and call counting (as the repository's tests observe) are out of scope.
- Swift `Int` overflow (a trap) is not modelled. Integers are unbounded, and no computation in the core approaches the bounds for calendar field values.
- The scenarios use Foundation's Gregorian weekday numbering (1 = Sunday through 7 = Saturday) on a calendar whose day 0 is a Sunday, and an hour-counted calendar whose hour 0 is midnight.
