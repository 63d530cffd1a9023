/** The schedule abstraction: search directions, generators, the global
    helpers `isEmptyGenerator` / `emptyGenerator`, and the lazy sequence that
    `generate(start:end:)` produces. */
module Schedules {
  import opened Wrappers
  import opened Intervals

  /** Whether to look for the element containing a moment, or the nearest one
      strictly before / after it. */
  datatype Direction = FirstBefore | On | FirstAfter

  /** A schedule generator: a pure function from a moment and a direction to
      the matching element, if any. */
  type Generator = (Moment, Direction) -> Option<DateInterval>

  /** The error a range computation may report (Swift's open `Error`). */
  datatype ScheduleError = ScheduleError(description: string)

  /** What an asynchronous range computation delivers to its completion. */
  type RangeResult = Result<seq<DateInterval>, ScheduleError>

  /** The range computation a schedule answers `schedule(in:queue:then:)` with:
      a concrete schedule's own, the always-empty one, or the sequential
      calculation driven by a generator. Only the delivered value is modelled. */
  datatype AsyncGenerator =
    | Custom(run: DateInterval -> RangeResult)
    | EmptyAsync
    | SequentialAsync(body: Generator)

  /** A value conforming to the `Schedule` protocol: its `isEmpty` flag, its
      own `contains(_:)`, its `schedule(matching:direction:)` (which the
      protocol's `generator` accessor returns) and its range computation. */
  datatype Schedule = Schedule(isEmpty: bool, contains: Moment -> bool, generator: Generator, asyncGenerator: AsyncGenerator)

  /** A generator whose first-after answer always lies strictly after the
      moment asked about: the condition under which chaining first-after calls
      moves forward. */
  ghost predicate Monotone(g: Generator)
  {
    forall d: Moment :: g(d, FirstAfter).Some? ==> d < g(d, FirstAfter).value.start
  }

  /** The k-th element reached from `first` by repeatedly asking for the first
      element after the previous element's start (the manual iteration). */
  function Iterate(g: Generator, first: Option<DateInterval>, k: nat): Option<DateInterval>
  {
    if k == 0 then first
    else match Iterate(g, first, k - 1)
      case None => None
      case Some(prev) => g(prev.start, FirstAfter)
  }

  /** Iterating from a present element is iterating from its successor one
      step later. */
  lemma {:induction false} IterateFromSuccessor(g: Generator, x: DateInterval, k: nat)
    ensures Iterate(g, Some(x), k + 1) == Iterate(g, g(x.start, FirstAfter), k)
    decreases k
  {
    if k > 0 {
      IterateFromSuccessor(g, x, k - 1);
    }
  }

  /** The generator that never produces an element. */
  const EmptyGenerator: Generator := (d: Moment, direction: Direction) => None

  /** Probes a generator at the two sentinel moments: on and first-after the
      distant past, on and first-before the distant future. */
  function IsEmptyGenerator(g: Generator): (empty: bool)
    ensures empty <==> g(DistantPast, On).None? && g(DistantPast, FirstAfter).None?
                       && g(DistantFuture, On).None? && g(DistantFuture, FirstBefore).None?
  {
    g(DistantPast, On).OrElse(g(DistantPast, FirstAfter).OrElse(
      g(DistantFuture, On).OrElse(g(DistantFuture, FirstBefore)))).None?
  }

  lemma EmptyGeneratorIsEmpty(d: Moment, direction: Direction)
    ensures EmptyGenerator(d, direction).None?
    ensures IsEmptyGenerator(EmptyGenerator)
  {
  }

  /** The first element of a generated sequence before the end bound is
      applied: the element on `start`, else the first one after it; if that
      element began before `start`, it is replaced once by its successor. */
  function Seed(g: Generator, start: Moment): (r: Option<DateInterval>)
    ensures g(start, On).Some? && start <= g(start, On).value.start ==> r == g(start, On)
    ensures g(start, On).Some? && g(start, On).value.start < start ==> r == g(g(start, On).value.start, FirstAfter)
    ensures Monotone(g) && g(start, On).None? ==> r == g(start, FirstAfter)
    ensures g(start, On).None? && g(start, FirstAfter).Some? && g(start, FirstAfter).value.start < start ==>
      r == g(g(start, FirstAfter).value.start, FirstAfter)
    ensures g(start, On).None? && (g(start, FirstAfter).None? || start <= g(start, FirstAfter).value.start) ==>
      r == g(start, FirstAfter)
    ensures Monotone(g) && r.Some? && g(start, On).Some? ==> g(start, On).value.start <= r.value.start
    ensures r.None? ==> g(start, On).None? || g(start, On).value.start < start
  {
    var first := g(start, On).OrElse(g(start, FirstAfter));
    if first.Some? && first.value.start < start then g(first.value.start, FirstAfter) else first
  }

  predicate WithinEnd(i: DateInterval, end: Option<Moment>)
  {
    end.None? || (i.start <= end.value && i.end <= end.value)
  }

  /** A candidate that starts or ends past the end bound ends the sequence. */
  function Clip(candidate: Option<DateInterval>, end: Option<Moment>): (r: Option<DateInterval>)
    ensures r.Some? <==> candidate.Some? && WithinEnd(candidate.value, end)
    ensures r.Some? ==> r == candidate
    ensures end.None? ==> r == candidate
  {
    if candidate.Some? && !WithinEnd(candidate.value, end) then None else candidate
  }

  /** The first `n` pulls of the iterator whose pending candidate is `next`. */
  function Pulls(g: Generator, end: Option<Moment>, next: Option<DateInterval>, n: nat): (r: seq<DateInterval>)
    ensures |r| <= n
    ensures forall i :: 0 <= i < |r| ==> Iterate(g, next, i) == Some(r[i]) && WithinEnd(r[i], end)
    ensures |r| < n ==> Clip(Iterate(g, next, |r|), end).None?
    decreases n
  {
    match Clip(next, end)
    case None => []
    case Some(c) =>
      if n == 0 then []
      else
        var rest := Pulls(g, end, g(c.start, FirstAfter), n - 1);
        forall i | 0 <= i <= |rest| {
          IterateFromSuccessor(g, c, i);
        }
        [c] + rest
  }

  /** The first `n` elements of `s.generate(start: start, end: end)`. The
      sequence itself may be infinite when no end bound is given. */
  function Generate(s: Schedule, start: Moment, end: Option<Moment>, n: nat): (r: seq<DateInterval>)
    requires end.Some? ==> start <= end.value
    ensures s.isEmpty ==> r == []
    ensures |r| <= n
    ensures forall i :: 0 <= i < |r| ==> WithinEnd(r[i], end)
    ensures !s.isEmpty ==> forall i :: 0 <= i < |r| ==> Iterate(s.generator, Seed(s.generator, start), i) == Some(r[i])
    ensures forall i :: 0 < i < |r| ==> s.generator(r[i - 1].start, FirstAfter) == Some(r[i])
    ensures !s.isEmpty && |r| < n ==> Clip(Iterate(s.generator, Seed(s.generator, start), |r|), end).None?
  {
    if s.isEmpty then [] else Pulls(s.generator, end, Seed(s.generator, start), n)
  }

  /** Pulling more elements only extends the sequence: the first `m` pulls
      are a prefix of the first `n`, and fall short of `m` only when the
      sequence has ended. */
  lemma GenerateIsLazy(s: Schedule, start: Moment, end: Option<Moment>, m: nat, n: nat)
    requires end.Some? ==> start <= end.value
    requires m <= n
    ensures |Generate(s, start, end, m)| == if |Generate(s, start, end, n)| < m then |Generate(s, start, end, n)| else m
    ensures Generate(s, start, end, m) == Generate(s, start, end, n)[..|Generate(s, start, end, m)|]
  {
  }

  /** Without an end bound and from the distant past, the sequence is the
      manual iteration: the element on the distant past, else the first one
      after it, then first-after from each element's start. */
  lemma GenerateFromDistantPastIsManualIteration(s: Schedule, n: nat)
    requires !s.isEmpty
    requires var first := s.generator(DistantPast, On).OrElse(s.generator(DistantPast, FirstAfter));
      first.Some? ==> DistantPast <= first.value.start
    ensures var r := Generate(s, DistantPast, None, n);
      var first := s.generator(DistantPast, On).OrElse(s.generator(DistantPast, FirstAfter));
      && (forall i :: 0 <= i < |r| ==> Iterate(s.generator, first, i) == Some(r[i]))
      && (|r| < n ==> Iterate(s.generator, first, |r|).None?)
  {
  }
}
