/** The pipeline's fixed parameters (functions/config.py). */
module Config {
  /** Fraction of the full dataset drawn as the sample. */
  const SampleFrac: real := 0.01
  /** Number of subsets the sample is split into. */
  const K: nat := 10
  /** Total privacy budget of a default run, shared evenly across released statistics. */
  const DefaultEpsilon: real := 1.0
  /** Minimum cell size of a statistic released under the default allocation. */
  const NThreshold: int := 10
}
