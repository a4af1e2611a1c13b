/** The status of a task, and which tasks the scheduler may start. */
module TaskStatus {
  datatype Status = Pending | InProgress | Success | Failed | Other

  /** GetReadyTasks looks at pending tasks, and at failed ones that have retries left. */
  predicate MayStart(status: Status, retries: int, maxRetries: int) {
    status.Pending? || (status.Failed? && retries < maxRetries)
  }
}
