/** The clock: `std::time::Instant`, `Duration` and `Instant::now()`. */
module Timing {

  /** A point in time, in nanoseconds from an arbitrary origin. */
  type Instant = int

  /** A length of time, in nanoseconds. */
  type Duration = nat

  const NanosPerMilli: nat := 1_000_000

  /** `Duration::from_millis`. */
  function FromMillis(ms: nat): Duration
  {
    ms * NanosPerMilli
  }

  /** Reading `i` of the clock is no later than reading `j`. */
  ghost predicate NotAfter(reading: nat -> Instant, i: nat, j: nat)
  {
    reading(i) <= reading(j)
  }

  /** No reading of the clock is earlier than one taken before it. */
  ghost predicate Monotone(reading: nat -> Instant)
  {
    forall i: nat, j: nat :: i <= j ==> NotAfter(reading, i, j)
  }

  lemma MonotoneAt(reading: nat -> Instant, i: nat, j: nat)
    requires Monotone(reading) && i <= j
    ensures reading(i) <= reading(j)
  {
    assert NotAfter(reading, i, j);
  }

  /** Under a clock that never goes back, a strictly earlier reading was taken
      strictly before. */
  lemma EarlierReading(reading: nat -> Instant, i: nat, j: nat)
    requires Monotone(reading) && reading(i) < reading(j)
    ensures i < j
  {
    assert j <= i ==> NotAfter(reading, j, i);
  }

  /** Some reading of the clock is at or past `t`. */
  ghost predicate Reaches(reading: nat -> Instant, t: Instant)
  {
    exists k: nat :: t <= reading(k)
  }

  /** The clock passes every instant eventually. */
  ghost predicate Unbounded(reading: nat -> Instant)
  {
    forall t: Instant :: Reaches(reading, t)
  }

  /** The source of `Instant::now()`. `reading(i)` is what the clock shows at
      the i-th moment it is observed; `ticks` counts the moments observed so
      far, so every call of `Now` consumes exactly one reading. */
  class Clock {
    const reading: nat -> Instant
    var ticks: nat

    constructor (reading: nat -> Instant)
      ensures this.reading == reading && ticks == 0
    {
      this.reading := reading;
      ticks := 0;
    }

    /** `Instant::now()`. */
    method Now() returns (t: Instant)
      modifies this
      ensures t == reading(old(ticks))
      ensures ticks == old(ticks) + 1
    {
      t := reading(ticks);
      ticks := ticks + 1;
    }

    /** `thread::sleep`: time passes until the clock shows `target` or later,
        so the next `Now` returns at least `target`; the moments skipped are
        exactly those still before `target`. */
    method SleepUntil(target: Instant)
      requires Monotone(reading) && Reaches(reading, target)
      modifies this
      ensures old(ticks) <= ticks && target <= reading(ticks)
      ensures forall j: nat :: old(ticks) <= j < ticks ==> reading(j) < target
    {
      ghost var k: nat :| target <= reading(k);
      ghost var bound: nat := if k < ticks then ticks else k;
      MonotoneAt(reading, k, bound);
      while reading(ticks) < target
        invariant old(ticks) <= ticks <= bound
        invariant forall j: nat :: old(ticks) <= j < ticks ==> reading(j) < target
        decreases bound - ticks
      {
        ticks := ticks + 1;
      }
    }
  }
}
