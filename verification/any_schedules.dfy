/** `AnySchedule`, the type-erased schedule: built from a concrete schedule,
    whose answers it copies, or from a bare generator, whose emptiness it
    probes once and whose range computation is the sequential calculator. */
module AnySchedules {
  import opened Wrappers
  import opened Intervals
  import opened Schedules
  import opened Helpers

  /** `AnySchedule(_:)`: keeps the concrete schedule's emptiness flag, its
      generator and its range computation; its `contains(_:)` asks the
      concrete generator for an element on the moment, whatever the concrete
      schedule's own `contains(_:)` answers. */
  function FromConcrete(concrete: Schedule): (s: Schedule)
    ensures s.isEmpty == concrete.isEmpty
    ensures forall d, direction :: s.generator(d, direction) == concrete.generator(d, direction)
    ensures forall d :: s.contains(d) <==> concrete.generator(d, On).Some?
    ensures RangeComputable(concrete) ==> RangeComputable(s)
    ensures RangeComputable(concrete) ==> forall iv :: ScheduleIn(s, iv) == ScheduleIn(concrete, iv)
  {
    Schedule(concrete.isEmpty, d => concrete.generator(d, On).Some?, concrete.generator, concrete.asyncGenerator)
  }

  /** The two-probe emptiness test of `AnySchedule(body:)`: nothing on or
      after the distant past. */
  function ProbeEmpty(g: Generator): (empty: bool)
    ensures empty <==> g(DistantPast, On).None? && g(DistantPast, FirstAfter).None?
  {
    g(DistantPast, On).OrElse(g(DistantPast, FirstAfter)).None?
  }

  /** `AnySchedule(body:)`: answers with `g`, is empty when the two probes
      find nothing, and then computes ranges without calling `g`. */
  function FromBody(g: Generator): (s: Schedule)
    ensures s.isEmpty == ProbeEmpty(g)
    ensures forall d, direction :: s.generator(d, direction) == g(d, direction)
    ensures forall d :: s.contains(d) <==> g(d, On).Some?
    ensures s.isEmpty ==> s.asyncGenerator.EmptyAsync?
    ensures !s.isEmpty ==> s.asyncGenerator.SequentialAsync?
    ensures s.asyncGenerator.SequentialAsync? ==>
      forall d, direction :: s.asyncGenerator.body(d, direction) == g(d, direction)
  {
    var empty := ProbeEmpty(g);
    Schedule(empty, d => g(d, On).Some?, g, if empty then EmptyAsync else SequentialAsync(g))
  }

  /** The type-erased schedule delegates to the generator it boxes: built
      from a generator, it contains a moment exactly when the generator has
      an element on it, and `schedule(matching:direction:)` gives the
      generator's own answers; wrapping a concrete schedule does the same
      with the concrete generator. */
  lemma ErasedScheduleDelegates(g: Generator, concrete: Schedule, d: Moment, direction: Direction)
    ensures FromBody(g).contains(d) <==> g(d, On) != None
    ensures FromBody(g).generator(d, direction) == g(d, direction)
    ensures FromConcrete(concrete).contains(d) <==> concrete.generator(d, On) != None
    ensures FromConcrete(concrete).generator(d, direction) == concrete.generator(d, direction)
  {
  }

  /** The concrete schedule's own `contains(_:)` is bypassed: the wrapper
      agrees with it everywhere exactly when it agrees with the concrete
      generator's `on` answers everywhere. */
  lemma ConcreteContainsIsBypassed(concrete: Schedule)
    ensures (forall d :: FromConcrete(concrete).contains(d) == concrete.contains(d))
      <==> (forall d :: concrete.contains(d) == concrete.generator(d, On).Some?)
  {
    var s := FromConcrete(concrete);
    if forall d :: s.contains(d) == concrete.contains(d) {
      forall d ensures concrete.contains(d) == concrete.generator(d, On).Some? {
        assert s.contains(d) == concrete.contains(d);
      }
    }
    if forall d :: concrete.contains(d) == concrete.generator(d, On).Some? {
      forall d ensures s.contains(d) == concrete.contains(d) {
        assert concrete.contains(d) == concrete.generator(d, On).Some?;
      }
    }
  }

  /** A concrete schedule that claims every moment while its generator
      answers nothing: wrapped, it contains no moment. */
  lemma ClaimingEverythingWrapsToNothing(d: Moment)
    ensures var concrete := Schedule(true, _ => true, EmptyGenerator, EmptyAsync);
      concrete.contains(d) && !FromConcrete(concrete).contains(d)
  {
  }

  /** The sequential range computation terminates when its generator moves
      forward. */
  ghost predicate RangeComputable(s: Schedule)
  {
    s.asyncGenerator.SequentialAsync? ==> Monotone(s.asyncGenerator.body)
  }

  /** The result `schedule(in:queue:then:)` delivers to its completion. The
      range computations the type-erased schedule chooses always succeed; the
      sequential one delivers elements inside the interval, in increasing
      order of start, each the first-after answer for its predecessor. */
  function ScheduleIn(s: Schedule, iv: DateInterval): (r: RangeResult)
    requires RangeComputable(s)
    ensures !s.asyncGenerator.Custom? ==> r.Success?
    ensures s.asyncGenerator.EmptyAsync? ==> r.value == []
    ensures s.asyncGenerator.SequentialAsync? ==> forall i :: 0 <= i < |r.value| ==> InBounds(iv, r.value[i])
    ensures s.asyncGenerator.SequentialAsync? ==>
      forall i, j :: 0 <= i < j < |r.value| ==> r.value[i].start < r.value[j].start
    ensures s.asyncGenerator.SequentialAsync? ==>
      forall i :: 0 < i < |r.value| ==> s.asyncGenerator.body(r.value[i - 1].start, FirstAfter) == Some(r.value[i])
    ensures s.asyncGenerator.SequentialAsync? ==> r == Success(RangeElements(s.asyncGenerator.body, iv))
    ensures s.asyncGenerator.Custom? ==> r == s.asyncGenerator.run(iv)
  {
    match s.asyncGenerator
    case Custom(run) => run(iv)
    case EmptyAsync => Success([])
    case SequentialAsync(g) => Success(RangeElements(g, iv))
  }

  /** A schedule built from a generator delivers, for every interval, exactly
      the sequential calculator's elements when it is not empty, and no
      elements when it is. */
  lemma BodyRangeIsSequentialCalculation(g: Generator, iv: DateInterval)
    requires Monotone(g)
    ensures RangeComputable(FromBody(g))
    ensures !ProbeEmpty(g) ==> ScheduleIn(FromBody(g), iv) == Success(RangeElements(g, iv))
    ensures ProbeEmpty(g) ==> ScheduleIn(FromBody(g), iv) == Success([])
  {
    var s := FromBody(g);
    if !ProbeEmpty(g) {
      assert s.asyncGenerator == SequentialAsync(g);
    }
  }

  /** Whatever the generator, a schedule found empty by the four probes of
      `isEmptyGenerator` is found empty by the two probes of `AnySchedule`. */
  lemma FourProbeEmptyIsTwoProbeEmpty(g: Generator)
    requires IsEmptyGenerator(g)
    ensures FromBody(g).isEmpty
  {
  }

  /** A generator that only answers first-before, from after the moment 0. */
  function BackwardOnlyGenerator(): Generator
  {
    (d: Moment, direction: Direction) =>
      if direction == FirstBefore && d > 1 then Some(Interval(0, 1)) else None
  }

  /** The two probes are only a heuristic: a generator with elements that are
      reachable only backwards from the distant future is classed empty by
      `AnySchedule(body:)` though `isEmptyGenerator` says it is not. */
  lemma TwoProbesMissBackwardOnlyGenerator()
    ensures FromBody(BackwardOnlyGenerator()).isEmpty
    ensures !IsEmptyGenerator(BackwardOnlyGenerator())
  {
    assert BackwardOnlyGenerator()(DistantFuture, FirstBefore).Some?;
  }
}
