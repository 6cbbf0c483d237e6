/** Where a log sits in its chain, and how it compares with a row's watermark. */
module LogPositions {
  datatype LogPosition = LogPosition(block: int, logIndex: int, timestamp: int)

  /** -1, 0 or 1: the log is behind, at or ahead of the watermark. */
  function EventPosition(block: int, logIndex: int, at: LogPosition): int {
    if at.block < block then -1
    else if at.block > block then 1
    else if at.logIndex < logIndex then -1 else if at.logIndex > logIndex then 1 else 0
  }

  /** Behind means an earlier block, or an earlier log of the same block; the same log is neither. */
  lemma PositionMeans(block: int, logIndex: int, at: LogPosition)
    ensures EventPosition(block, logIndex, at) < 0 <==> at.block < block || (at.block == block && at.logIndex < logIndex)
    ensures EventPosition(block, logIndex, at) == 0 <==> at.block == block && at.logIndex == logIndex
  {
  }

  predicate Before(a: LogPosition, b: LogPosition) {
    a.block < b.block || (a.block == b.block && a.logIndex < b.logIndex)
  }
}
