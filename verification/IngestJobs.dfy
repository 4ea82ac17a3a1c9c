/** The retry policy of the background ingest worker, shared by the local and the Redis queue. */
module IngestJobs {

  datatype Status = Pending | Processing | Completed | Failed {
    predicate Terminal() {
      Completed? || Failed?
    }
  }

  /** The part of a job that the worker updates in place. */
  datatype Progress = Progress(status: Status, retries: nat)

  /** How often a job may be attempted. The worker compares after incrementing, so even a limit
      of zero or less allows one attempt. */
  function AttemptLimit(maxRetries: int): (limit: nat)
    ensures limit >= 1
  {
    if maxRetries < 1 then 1 else maxRetries
  }

  /** `_handle_job_failure`: count the failure, then give up or go back to pending. */
  function AfterFailure(retries: nat, maxRetries: int): Progress {
    Progress(if retries + 1 >= maxRetries then Failed else Pending, retries + 1)
  }
}
