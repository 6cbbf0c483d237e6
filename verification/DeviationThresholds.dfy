/** The deviation thresholds that the alert state and the probe gate share. */
module DeviationThresholds {
  const TOLERANCE_MILLIONTHS := 1010000
  const CRITICAL_MILLIONTHS := 1050000
  const LEGACY_OPEN_BREACH_ENTRY_THRESHOLD := 10000

  /** Peak of the open breach over its entry threshold above the critical ratio; both are
      integers in basis points. */
  predicate PeakIsCritical(openPeak: int, entryThreshold: int) {
    var threshold := if entryThreshold > 0 then entryThreshold else LEGACY_OPEN_BREACH_ENTRY_THRESHOLD;
    openPeak > 0 && openPeak * 100 > threshold * 105
  }
}
