/** What engines say about jobs, and the reports the status loop makes of it. */
module Reports {
  type JobId = nat

  /** The engine states of internal/core/engine/engine.go. */
  datatype JobState = StateQueued | StateActive | StateCompleted | StateFailed

  datatype JobStatus = JobStatus(
    engineJobId: string, name: string, state: JobState, progress: real,
    speed: int, totalSize: int, downloadedSize: int, error: string)

  datatype StatusReport = StatusReport(
    jobId: JobId, engineJobId: string, state: JobState, progress: real,
    speed: int, totalSize: int, downloadedSize: int, name: string, error: string)

  predicate Terminal(s: JobState) {
    s == StateCompleted || s == StateFailed
  }
}
