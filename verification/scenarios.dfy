/** Concrete runs of the sampling loop with fixed lookup answers. */
module Scenarios {
  import opened Wrappers
  import opened Normalize
  import opened Metrics
  import opened Driver

  /** A record with 12.0 invariant, nothing borrowed, price 1.0 and supply 10.0
      at the hardcoded scales. */
  const ExamplePool: RawPool :=
    RawPool(Numeric(12_000_000_000_000), Numeric(0), Numeric(1_000_000), Numeric(10_000_000_000_000))

  /** Start and end on the same timestamp, block 100 found: one iteration, one
      row with the decoded values and both returns zero, and that row's values
      become the baseline. */
  lemma SingleSampleRun(t0: int, sqrt: real -> real)
    requires sqrt(1.0) == 1.0
    ensures Run(Env(_ => Some(100), _ => Some(ExamplePool), sqrt), t0, t0, None)
      == RunResult([Row(t0, 100, 12.0, 10.0, 1.0, Some(0.0), Some(0.0))], 1,
                   Some(Baseline(12.0, 10.0, 1.0)), Finished)
  {
  }

  /** No block for the first week, block 100 for the next: no row for the first
      timestamp, one row for the second, and the baseline comes from the second. */
  lemma FirstWeekMissed(t0: int, sqrt: real -> real)
    requires sqrt(1.0) == 1.0
    ensures var env := Env(t => if t == t0 then None else Some(100), _ => Some(ExamplePool), sqrt);
      Run(env, t0, t0 + Week, None)
      == RunResult([Row(t0 + Week, 100, 12.0, 10.0, 1.0, Some(0.0), Some(0.0))], 2,
                   Some(Baseline(12.0, 10.0, 1.0)), Finished)
  {
  }

  /** Block number 0 is a miss like no block at all: a run that only ever sees
      block 0 emits nothing and keeps no baseline. */
  lemma BlockZeroIsMiss(t0: int, sqrt: real -> real)
    ensures Run(Env(_ => Some(0), _ => Some(ExamplePool), sqrt), t0, t0, None)
      == RunResult([], 1, None, Finished)
  {
  }

  /** A record with a zero supply raises at the division by the baseline supply:
      the run stops at that cursor with the rows written before it. */
  lemma ZeroSupplyCrashes(t0: int, sqrt: real -> real)
    ensures var pool := RawPool(Numeric(1), Numeric(0), Numeric(1), Numeric(0));
      Run(Env(_ => Some(7), _ => Some(pool), sqrt), t0, t0 + 5 * Week, None)
      == RunResult([], 1, None, Crashed(t0))
  {
  }
}
