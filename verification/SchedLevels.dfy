/** The priority levels of tp2. */
module SchedLevels {
  const NUM_PRIORITY_LEVELS := 4
  const MAX_PRIORITY_LEVEL := 0
  const MIN_PRIORITY_LEVEL := NUM_PRIORITY_LEVELS - 1
  /** The level after the default one, where the pills go. */
  const PILL_LEVEL := 1
}
