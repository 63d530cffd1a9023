/** The range calculator `_sequentiallyCalculateScheduleElements`: every
    element of a generator that lies inside a closed date interval, found by
    chaining first-after calls from a seed at the interval's start. */
module Helpers {
  import opened Wrappers
  import opened Intervals
  import opened Schedules

  /** Both endpoints of `c` lie in the closed interval `[iv.start, iv.end]`. */
  predicate InBounds(iv: DateInterval, c: DateInterval)
  {
    c.start >= iv.start && c.end >= iv.start && c.start <= iv.end && c.end <= iv.end
  }

  /** The seed of the calculation: the element on the interval's start, kept
      only if it neither starts nor ends before the interval; otherwise the
      first element after the interval's start. */
  function RangeSeed(g: Generator, iv: DateInterval): (r: Option<DateInterval>)
    ensures g(iv.start, On).Some? && iv.start <= g(iv.start, On).value.start ==> r == g(iv.start, On)
    ensures g(iv.start, On).None? || g(iv.start, On).value.start < iv.start ==> r == g(iv.start, FirstAfter)
    ensures Monotone(g) && r.Some? ==> iv.start <= r.value.start
    ensures r.None? ==> g(iv.start, FirstAfter).None?
  {
    var on := g(iv.start, On);
    if on.None? || on.value.start < iv.start || on.value.end < iv.start then g(iv.start, FirstAfter) else on
  }

  /** A termination measure for the chain: the distance from the candidate's
      start to the interval's end, zero once past it. */
  function Room(iv: DateInterval, next: Option<DateInterval>): nat
  {
    if next.Some? && next.value.start <= iv.end then iv.end - next.value.start + 1 else 0
  }

  /** The in-bounds prefix of the chain of first-after calls that starts
      at the candidate `next`. */
  function Chain(g: Generator, iv: DateInterval, next: Option<DateInterval>): seq<DateInterval>
    requires Monotone(g)
    decreases Room(iv, next)
  {
    if next.Some? && InBounds(iv, next.value) then [next.value] + Chain(g, iv, g(next.value.start, FirstAfter)) else []
  }

  /** The chain from `next` is exactly the manual iteration from `next`, cut
      at the first candidate that is missing or out of bounds. */
  lemma {:induction false} ChainIsIteration(g: Generator, iv: DateInterval, next: Option<DateInterval>)
    requires Monotone(g)
    ensures var r := Chain(g, iv, next);
      && (forall i :: 0 <= i < |r| ==> InBounds(iv, r[i]) && Iterate(g, next, i) == Some(r[i]))
      && (Iterate(g, next, |r|).None? || !InBounds(iv, Iterate(g, next, |r|).value))
    decreases Room(iv, next)
  {
    if next.Some? && InBounds(iv, next.value) {
      var successor := g(next.value.start, FirstAfter);
      var rest := Chain(g, iv, successor);
      ChainIsIteration(g, iv, successor);
      IterateFromSuccessor(g, next.value, |rest|);
      forall i | 0 <= i < |rest| ensures Iterate(g, next, i + 1) == Some(rest[i]) {
        IterateFromSuccessor(g, next.value, i);
      }
      var r := [next.value] + rest;
      assert forall i :: 0 < i < |r| ==> r[i] == rest[i - 1];
    }
  }

  /** The starts along a chain strictly increase. */
  lemma {:induction false} ChainIncreases(g: Generator, iv: DateInterval, next: Option<DateInterval>)
    requires Monotone(g)
    ensures forall i :: 0 <= i < |Chain(g, iv, next)| ==> Chain(g, iv, next)[0].start <= Chain(g, iv, next)[i].start
    ensures forall i, j :: 0 <= i < j < |Chain(g, iv, next)| ==> Chain(g, iv, next)[i].start < Chain(g, iv, next)[j].start
    decreases Room(iv, next)
  {
    if next.Some? && InBounds(iv, next.value) {
      var successor := g(next.value.start, FirstAfter);
      ChainIncreases(g, iv, successor);
      var rest := Chain(g, iv, successor);
      var r := [next.value] + rest;
      assert Chain(g, iv, next) == r;
      if |rest| > 0 {
        assert r[0].start < rest[0].start;
      }
      forall i, j | 0 <= i < j < |r| ensures r[i].start < r[j].start {
        assert r[j] == rest[j - 1];
        if i > 0 {
          assert r[i] == rest[i - 1];
          assert rest[i - 1].start < rest[j - 1].start;
        } else {
          assert rest[0].start <= rest[j - 1].start;
        }
      }
    }
  }

  /** The elements `_sequentiallyCalculateScheduleElements(in: iv, for: g)`
      returns. */
  function RangeElements(g: Generator, iv: DateInterval): (r: seq<DateInterval>)
    requires Monotone(g)
    ensures forall i :: 0 <= i < |r| ==> InBounds(iv, r[i])
    ensures forall i :: 0 <= i < |r| ==> Iterate(g, RangeSeed(g, iv), i) == Some(r[i])
    ensures Iterate(g, RangeSeed(g, iv), |r|).None? || !InBounds(iv, Iterate(g, RangeSeed(g, iv), |r|).value)
    ensures forall i :: 0 < i < |r| ==> g(r[i - 1].start, FirstAfter) == Some(r[i])
    ensures forall i, j :: 0 <= i < j < |r| ==> r[i].start < r[j].start
  {
    ChainIsIteration(g, iv, RangeSeed(g, iv));
    ChainIncreases(g, iv, RangeSeed(g, iv));
    Chain(g, iv, RangeSeed(g, iv))
  }

  /** `_sequentiallyCalculateScheduleElements(in:for:)`: seed, then append
      candidates while they stay inside the interval, asking for the next one
      after each appended element. */
  method SequentiallyCalculateScheduleElements(iv: DateInterval, g: Generator) returns (result: seq<DateInterval>)
    requires Monotone(g)
    ensures result == RangeElements(g, iv)
  {
    var firstCandidate: Option<DateInterval> := g(iv.start, On);
    if firstCandidate.None? || firstCandidate.value.start < iv.start || firstCandidate.value.end < iv.start {
      firstCandidate := g(iv.start, FirstAfter);
    }
    assert firstCandidate == RangeSeed(g, iv);
    if firstCandidate.None? {
      return [];
    }
    result := CollectChain(iv, g, firstCandidate);
  }

  /** The `while` loop of `_sequentiallyCalculateScheduleElements` on its
      own: from a candidate, append while in bounds and ask for the next one
      after each appended element. */
  method CollectChain(iv: DateInterval, g: Generator, first: Option<DateInterval>) returns (result: seq<DateInterval>)
    requires Monotone(g)
    ensures result == Chain(g, iv, first)
  {
    result := [];
    var next: Option<DateInterval> := first;
    while next.Some? && InBounds(iv, next.value)
      invariant result + Chain(g, iv, next) == Chain(g, iv, first)
      decreases Room(iv, next)
    {
      var successor := g(next.value.start, FirstAfter);
      assert (result + [next.value]) + Chain(g, iv, successor) == result + ([next.value] + Chain(g, iv, successor));
      result := result + [next.value];
      next := successor;
    }
  }

  /** The empty generator has no elements in any interval. */
  lemma EmptyGeneratorHasNoElements(iv: DateInterval)
    ensures Monotone(EmptyGenerator)
    ensures RangeElements(EmptyGenerator, iv) == []
  {
  }

  /** Under a monotone generator, the manual iteration never goes back
      before the element it started from. */
  lemma {:induction false} IterateStaysAfterFirst(g: Generator, first: DateInterval, k: nat)
    requires Monotone(g)
    ensures Iterate(g, Some(first), k).Some? ==> first.start <= Iterate(g, Some(first), k).value.start
    decreases k
  {
    if k > 0 {
      IterateStaysAfterFirst(g, first, k - 1);
    }
  }

  /** The bounded sequence producer and the range calculator agree, up to
      the number of pulls, when the element on the start (if any) does not
      begin before it: they seed identically, chain identically, and stop at
      the same candidate. */
  lemma BoundedGenerateAgreesWithRange(s: Schedule, iv: DateInterval, n: nat)
    requires !s.isEmpty && Monotone(s.generator)
    requires s.generator(iv.start, On).None? || iv.start <= s.generator(iv.start, On).value.start
    ensures var r := RangeElements(s.generator, iv);
      Generate(s, iv.start, Some(iv.end), n) == r[..if n < |r| then n else |r|]
  {
    var g := s.generator;
    var seed := Seed(g, iv.start);
    assert seed == RangeSeed(g, iv);
    var a, b := Generate(s, iv.start, Some(iv.end), n), RangeElements(g, iv);
    if seed.Some? {
      forall k: nat | Iterate(g, seed, k).Some? && WithinEnd(Iterate(g, seed, k).value, Some(iv.end))
        ensures InBounds(iv, Iterate(g, seed, k).value)
      {
        IterateStaysAfterFirst(g, seed.value, k);
      }
    }
  }
}
