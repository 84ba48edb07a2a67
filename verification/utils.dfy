/**
  Online statistics and the stopwatch of region_profiler/utils.py.

  Python floats become integers: the clock yields integer readings and every
  duration is a difference of two readings, so sums stay exact.
 */
module Utils {

  /**
    An injected clock. `read(i)` is the value returned by the i-th call of
    the clock function and `tick` is the number of calls made so far, so the
    next call returns `read(tick)`.
   */
  datatype Clock = Clock(read: nat -> int, tick: nat)
  {
    /** The reading the next clock call returns. */
    function Now(): int {
      read(tick)
    }

    /** The clock after one call has consumed a reading. */
    function Advance(): Clock {
      this.(tick := tick + 1)
    }
  }

  /** A nondecreasing clock, as a monotonic performance counter is. */
  ghost predicate Monotone(c: Clock) {
    forall i: nat, j: nat :: i <= j ==> c.read(i) <= c.read(j)
  }

  // ---------------------------------------------------------------------------
  // SeqStats
  // ---------------------------------------------------------------------------

  /** Count, sum, minimum and maximum of a number sequence, kept online. */
  datatype SeqStats = SeqStats(count: nat, total: int, min: int, max: int)

  /** `SeqStats()` with every argument left at its default of 0. */
  const EmptyStats := SeqStats(0, 0, 0, 0)

  function Min(a: int, b: int): int { if b < a then b else a }

  function Max(a: int, b: int): int { if b > a then b else a }

  /** `SeqStats.add(x)`: one more sample; the first sample sets both bounds. */
  function Add(s: SeqStats, x: int): (r: SeqStats)
    ensures r.count == s.count + 1
    ensures r.total == s.total + x
    ensures r.min <= x <= r.max
    ensures s.count == 0 ==> r.min == x && r.max == x
    ensures s.count > 0 ==> r.min <= s.min && s.max <= r.max
    ensures s.count > 0 ==> (r.min == x || r.min == s.min) && (r.max == x || r.max == s.max)
  {
    var count := s.count + 1;
    SeqStats(count, s.total + x,
             if count == 1 then x else Min(s.min, x),
             if count == 1 then x else Max(s.max, x))
  }

  /** `SeqStats.avg`: 0 for no samples, the exact mean otherwise. */
  function Avg(s: SeqStats): (r: real)
    ensures s.count == 0 ==> r == 0.0
    ensures s.count > 0 ==> r * (s.count as real) == s.total as real
  {
    if s.count == 0 then 0.0 else (s.total as real) / (s.count as real)
  }

  /** Sum of a sequence of samples. */
  function Sum(xs: seq<int>): int
  {
    if xs == [] then 0 else xs[0] + Sum(xs[1..])
  }

  /** The statistics after `add` has been called on each of `xs` in order. */
  function Collect(s: SeqStats, xs: seq<int>): SeqStats
    decreases |xs|
  {
    if xs == [] then s else Collect(Add(s, xs[0]), xs[1..])
  }

  /** Folding a sample followed by more is adding it, then folding the rest. */
  lemma CollectCons(s: SeqStats, x: int, xs: seq<int>)
    ensures Collect(s, [x] + xs) == Collect(Add(s, x), xs)
  {
    assert ([x] + xs)[1..] == xs;
  }

  /**
    After n >= 1 samples on fresh statistics, count is n, total is the sum,
    and min and max are the least and greatest samples.
   */
  lemma {:induction false} CollectFresh(xs: seq<int>)
    requires |xs| >= 1
    ensures Collect(EmptyStats, xs).count == |xs|
    ensures Collect(EmptyStats, xs).total == Sum(xs)
    ensures forall i :: 0 <= i < |xs| ==>
              Collect(EmptyStats, xs).min <= xs[i] <= Collect(EmptyStats, xs).max
    ensures exists i :: 0 <= i < |xs| && Collect(EmptyStats, xs).min == xs[i]
    ensures exists j :: 0 <= j < |xs| && Collect(EmptyStats, xs).max == xs[j]
    ensures Collect(EmptyStats, xs).min <= Collect(EmptyStats, xs).max
  {
    CollectFrom(EmptyStats, xs);
    var r := Collect(EmptyStats, xs);
    var s1 := Add(EmptyStats, xs[0]);
    var rest := xs[1..];
    CollectFrom(s1, rest);
    assert r == Collect(s1, rest);
    if r.min != s1.min {
      var i :| 0 <= i < |rest| && r.min == rest[i];
      assert r.min == xs[i + 1];
    }
    if r.max != s1.max {
      var j :| 0 <= j < |rest| && r.max == rest[j];
      assert r.max == xs[j + 1];
    }
  }

  /**
    Collecting samples on top of existing statistics: count and total grow
    by exactly the number and the sum of the samples, and once there is at
    least one sample the bounds enclose the old bounds and every new sample,
    each bound being an old bound or one of the new samples.
   */
  lemma {:induction false} CollectFrom(s: SeqStats, xs: seq<int>)
    ensures Collect(s, xs).count == s.count + |xs|
    ensures Collect(s, xs).total == s.total + Sum(xs)
    ensures s.count + |xs| > 0 ==>
              forall i :: 0 <= i < |xs| ==> Collect(s, xs).min <= xs[i] <= Collect(s, xs).max
    ensures s.count > 0 ==> Collect(s, xs).min <= s.min && s.max <= Collect(s, xs).max
    ensures s.count > 0 ==>
              Collect(s, xs).min == s.min || exists i :: 0 <= i < |xs| && Collect(s, xs).min == xs[i]
    ensures s.count > 0 ==>
              Collect(s, xs).max == s.max || exists j :: 0 <= j < |xs| && Collect(s, xs).max == xs[j]
    decreases |xs|
  {
    if xs != [] {
      var s1 := Add(s, xs[0]);
      var rest := xs[1..];
      CollectFrom(s1, rest);
      var r := Collect(s, xs);
      assert r == Collect(s1, rest);
      forall i | 0 <= i < |xs|
        ensures r.min <= xs[i] <= r.max
      {
        if i > 0 {
          assert xs[i] == rest[i - 1];
        }
      }
      if r.min != s1.min {
        var i :| 0 <= i < |rest| && r.min == rest[i];
        assert r.min == xs[i + 1];
      }
      if r.max != s1.max {
        var j :| 0 <= j < |rest| && r.max == rest[j];
        assert r.max == xs[j + 1];
      }
    }
  }

  // ---------------------------------------------------------------------------
  // Timer
  // ---------------------------------------------------------------------------

  /**
    The stopwatch. The clock is not stored: every operation that calls it
    takes the clock and returns it with the consumed reading removed.
   */
  datatype Timer = Timer(beginTs: int, endTs: int, running: bool, lastEventTime: int)

  /** `Timer(clock)` as constructed: both stamps 0, not running. */
  const NewTimer := Timer(0, 0, false, 0)

  /** `Timer.start`: one clock reading becomes both the begin stamp and the last event time. */
  function Start(t: Timer, c: Clock): (r: (Timer, Clock))
    ensures r.0.running
    ensures r.0.beginTs == c.Now() && r.0.lastEventTime == c.Now()
    ensures r.0.endTs == t.endTs
    ensures r.1 == c.Advance()
  {
    var now := c.Now();
    (t.(beginTs := now, lastEventTime := now, running := true), c.Advance())
  }

  /**
    `Timer.stop`: always consumes a reading into the last event time; only a
    running timer takes it as its end stamp and stops.
   */
  function Stop(t: Timer, c: Clock): (r: (Timer, Clock))
    ensures r.0.lastEventTime == c.Now()
    ensures !r.0.running
    ensures t.running ==> r.0.endTs == c.Now() && r.0.beginTs == t.beginTs
    ensures !t.running ==> r.0 == t.(lastEventTime := c.Now())
    ensures r.1 == c.Advance()
  {
    var now := c.Now();
    if t.running then
      (t.(lastEventTime := now, endTs := now, running := false), c.Advance())
    else
      (t.(lastEventTime := now), c.Advance())
  }

  /** `Timer.mark_aux_event`: only the last event time changes. */
  function MarkAuxEvent(t: Timer, c: Clock): (r: (Timer, Clock))
    ensures r.0 == t.(lastEventTime := c.Now())
    ensures r.1 == c.Advance()
  {
    (t.(lastEventTime := c.Now()), c.Advance())
  }

  /** `Timer.elapsed`: the last completed measurement, 0 while running. */
  function Elapsed(t: Timer): (r: int)
    ensures t.running ==> r == 0
    ensures !t.running ==> t.beginTs + r == t.endTs
  {
    if t.running then 0 else t.endTs - t.beginTs
  }

  /**
    `Timer.current_elapsed`: the in-progress measurement while running (this
    calls the clock), otherwise the last completed one without a clock call.
   */
  function CurrentElapsed(t: Timer, c: Clock): (r: (int, Clock))
    ensures t.running ==> r.0 == c.Now() - t.beginTs && r.1 == c.Advance()
    ensures !t.running ==> r.0 == Elapsed(t) && r.1 == c
  {
    if t.running then (c.Now() - t.beginTs, c.Advance()) else (t.endTs - t.beginTs, c)
  }

  /**
    A start followed by a stop measures the difference of the two readings
    they consume, which is never negative on a monotone clock.
   */
  lemma StartStopElapsed(t: Timer, c: Clock)
    ensures Elapsed(Stop(Start(t, c).0, Start(t, c).1).0) == c.read(c.tick + 1) - c.read(c.tick)
    ensures Stop(Start(t, c).0, Start(t, c).1).1.tick == c.tick + 2
    ensures Monotone(c) ==> Elapsed(Stop(Start(t, c).0, Start(t, c).1).0) >= 0
  {
  }

  /**
    While the timer runs, the in-progress measurement read later is never
    smaller than one read earlier on a monotone clock.
   */
  lemma CurrentElapsedGrows(t: Timer, c: Clock, later: nat)
    requires t.running && Monotone(c) && c.tick <= later
    ensures CurrentElapsed(t, c).0 <= CurrentElapsed(t, c.(tick := later)).0
  {
  }
}
