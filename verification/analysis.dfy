/**
 * The per-product stage analysis the backend returns and the row and the
 * panel display: one entry per stage with its duration in milliseconds and
 * its idle time, plus the product's total idle time in seconds.
 */
module Analysis {
  import opened Durations

  datatype StageAnalysis = StageAnalysis(stageId: int, stageName: string, durationMs: int, idle: IdleValue)

  datatype ProductAnalysis = ProductAnalysis(stages: seq<StageAnalysis>, idleTotalSeconds: int)
}
