/**
 * The web front end's job records: the status a job is in, the record the
 * job table keeps, the partial updates `_update_job` applies, the effect of
 * a cancel request, expiry, and the JSON snapshot `_serialize_job` builds.
 */
module Jobs {
  import opened Wrappers
  import opened Text

  const JobTtlSeconds: real := 1800.0

  datatype Status = Queued | Waiting | Running | Cancelling | Cancelled | Done | Error {

    /** The string the source stores in `JobRecord.status`. */
    function Name(): (s: string)
      ensures |s| > 0
    {
      match this
      case Queued => "queued"
      case Waiting => "waiting"
      case Running => "running"
      case Cancelling => "cancelling"
      case Cancelled => "cancelled"
      case Done => "done"
      case Error => "error"
    }

    /** The statuses `_serialize_job` reports as cancellable. */
    predicate CanCancel() {
      this == Queued || this == Waiting || this == Running || this == Cancelling
    }

    /** The statuses `_cleanup_expired_jobs` treats as finished ("done-like"). */
    predicate IsTerminal() {
      this == Done || this == Error || this == Cancelled
    }
  }

  /** Each status has its own name. */
  lemma StatusNamesDistinct(a: Status, b: Status)
    requires a.Name() == b.Name()
    ensures a == b
  {
  }

  /** A status is either still cancellable or finished, never both. */
  lemma CancellableIffNotTerminal(s: Status)
    ensures s.CanCancel() <==> !s.IsTerminal()
  {
  }

  datatype Mode = Normal | Preview {
    function Name(): string {
      match this
      case Normal => "normal"
      case Preview => "preview"
    }
  }

  /** One entry of a job's `errors` list: `{"source": ..., "error": ...}`. */
  datatype ErrorItem = ErrorItem(source: string, error: string)

  /** `JobRecord`; `config_data` is not part of this model. */
  datatype JobRecord = JobRecord(
    jobId: string,
    createdAt: real,
    updatedAt: real,
    status: Status,
    message: string,
    mode: Mode,
    total: int,
    current: int,
    outputCount: int,
    errors: seq<ErrorItem>,
    workspaceDir: Option<string>,
    zipPath: Option<string>,
    outputFilename: Option<string>,
    inputPaths: seq<string>,
    previewMode: bool,
    previewMaxSize: Option<int>,
    previewQuality: Option<int>,
    cancelRequested: bool)

  /** The record `do_POST` files for an accepted upload. */
  function NewJob(jobId: string, now: real, previewMode: bool, inputPaths: seq<string>, workspaceDir: string,
                  previewMaxSize: int, previewQuality: int): JobRecord
  {
    JobRecord(
      jobId, now, now, Queued, "Queued", if previewMode then Preview else Normal,
      |inputPaths|, 0, 0, [], Some(workspaceDir), None, None, inputPaths,
      previewMode, Some(previewMaxSize), Some(previewQuality), false)
  }

  /** The keyword arguments of one `_update_job` call; `None` leaves a field alone. */
  datatype Changes = Changes(
    status: Option<Status> := None,
    message: Option<string> := None,
    current: Option<int> := None,
    total: Option<int> := None,
    outputCount: Option<int> := None,
    errors: Option<seq<ErrorItem>> := None,
    zipPath: Option<string> := None,
    outputFilename: Option<string> := None,
    cancelRequested: Option<bool> := None)

  /** `setattr` for every named field, then `updated_at = time.time()`. */
  function Apply(job: JobRecord, ch: Changes, now: real): JobRecord {
    job.(
      status := ch.status.GetOr(job.status),
      message := ch.message.GetOr(job.message),
      current := ch.current.GetOr(job.current),
      total := ch.total.GetOr(job.total),
      outputCount := ch.outputCount.GetOr(job.outputCount),
      errors := ch.errors.GetOr(job.errors),
      zipPath := if ch.zipPath.Some? then ch.zipPath else job.zipPath,
      outputFilename := if ch.outputFilename.Some? then ch.outputFilename else job.outputFilename,
      cancelRequested := ch.cancelRequested.GetOr(job.cancelRequested),
      updatedAt := now)
  }

  /** A field named in an update takes the given value; an unnamed one keeps its old value. */
  predicate SetOrKept<T(==)>(named: Option<T>, after: T, before: T) {
    (named.Some? ==> after == named.value) && (named.None? ==> after == before)
  }

  /**
   * An update sets exactly the fields it names, refreshes `updated_at`, and
   * leaves everything else as it was.
   */
  lemma ApplySetsOnlyNamedFields(job: JobRecord, ch: Changes, now: real)
    ensures var r := Apply(job, ch, now);
      && r.updatedAt == now
      && SetOrKept(ch.status, r.status, job.status)
      && SetOrKept(ch.message, r.message, job.message)
      && SetOrKept(ch.current, r.current, job.current)
      && SetOrKept(ch.total, r.total, job.total)
      && SetOrKept(ch.outputCount, r.outputCount, job.outputCount)
      && SetOrKept(ch.errors, r.errors, job.errors)
      && (ch.zipPath.Some? ==> r.zipPath == ch.zipPath) && (ch.zipPath.None? ==> r.zipPath == job.zipPath)
      && (ch.outputFilename.Some? ==> r.outputFilename == ch.outputFilename)
      && (ch.outputFilename.None? ==> r.outputFilename == job.outputFilename)
      && SetOrKept(ch.cancelRequested, r.cancelRequested, job.cancelRequested)
      && r.jobId == job.jobId && r.createdAt == job.createdAt && r.mode == job.mode
      && r.workspaceDir == job.workspaceDir && r.inputPaths == job.inputPaths
      && r.previewMode == job.previewMode && r.previewMaxSize == job.previewMaxSize
      && r.previewQuality == job.previewQuality
    ensures ch == Changes() ==> Apply(job, ch, now) == job.(updatedAt := now)
  {
  }

  /** Repeating an update at the same instant changes nothing more. */
  lemma ApplyIdempotent(job: JobRecord, ch: Changes, now: real)
    ensures Apply(Apply(job, ch, now), ch, now) == Apply(job, ch, now)
  {
  }

  /** `_update_job` on the whole table: the record under `id`, if any, is updated. */
  function UpdatedJobs(jobs: map<string, JobRecord>, id: string, ch: Changes, now: real): map<string, JobRecord> {
    if id in jobs then jobs[id := Apply(jobs[id], ch, now)] else jobs
  }

  /**
   * `_update_job` never adds or removes a job, leaves an unknown id's table
   * alone, and touches no record but the one named.
   */
  lemma UpdatedJobsFrame(jobs: map<string, JobRecord>, id: string, ch: Changes, now: real)
    ensures UpdatedJobs(jobs, id, ch, now).Keys == jobs.Keys
    ensures id !in jobs ==> UpdatedJobs(jobs, id, ch, now) == jobs
    ensures id in jobs ==> UpdatedJobs(jobs, id, ch, now)[id] == Apply(jobs[id], ch, now)
    ensures forall k :: k in jobs && k != id ==> UpdatedJobs(jobs, id, ch, now)[k] == jobs[k]
  {
  }

  /** The second result of `_request_cancel`. */
  datatype CancelResult = NotFound | Terminal | AlreadyCancelled | Accepted

  /** What `_request_cancel` does to one record. */
  function CancelRecord(job: JobRecord, now: real): (JobRecord, CancelResult) {
    if job.status == Done || job.status == Error then (job, Terminal)
    else if job.status == Cancelled then (job, AlreadyCancelled)
    else
      var (status, message) :=
        if job.status == Queued || job.status == Waiting then (Cancelled, "Cancelled")
        else if job.status == Running || job.status == Cancelling then
          (Cancelling, "Cancellation requested, waiting for current step")
        else (Cancelling, "Cancellation requested");
      (job.(cancelRequested := true, status := status, message := message, updatedAt := now), Accepted)
  }

  /** A finished job is refused and left completely untouched, `updated_at` included. */
  lemma CancelLeavesFinishedJobsAlone(job: JobRecord, now: real)
    requires job.status.IsTerminal()
    ensures CancelRecord(job, now).0 == job
    ensures CancelRecord(job, now).1 == if job.status == Cancelled then AlreadyCancelled else Terminal
  {
  }

  /**
   * A job that has not finished accepts the request: it is flagged, its
   * timestamp refreshed; a job not yet running is cancelled outright, a
   * running one is asked to stop; nothing else about it changes.
   */
  lemma CancelAcceptedEffect(job: JobRecord, now: real)
    requires !job.status.IsTerminal()
    ensures var (r, result) := CancelRecord(job, now);
      && result == Accepted
      && r.cancelRequested && r.updatedAt == now
      && (job.status == Queued || job.status == Waiting ==> r.status == Cancelled && r.message == "Cancelled")
      && (job.status == Running || job.status == Cancelling ==>
            r.status == Cancelling && r.message == "Cancellation requested, waiting for current step")
      && r == job.(cancelRequested := true, status := r.status, message := r.message, updatedAt := now)
  {
  }

  /** `_request_cancel` on the whole table: the table afterwards, the record it returns, and the result. */
  function CancelIn(jobs: map<string, JobRecord>, id: string, now: real): (map<string, JobRecord>, Option<JobRecord>, CancelResult) {
    if id !in jobs then (jobs, None, NotFound)
    else
      var (r, result) := CancelRecord(jobs[id], now);
      (jobs[id := r], Some(r), result)
  }

  /**
   * A cancel request changes no record but its own, and changes that one
   * only when it is accepted; an unknown id yields `NotFound` and no change.
   */
  lemma CancelInFrame(jobs: map<string, JobRecord>, id: string, now: real)
    ensures var (after, job, result) := CancelIn(jobs, id, now);
      && after.Keys == jobs.Keys
      && (forall k :: k in jobs && k != id ==> after[k] == jobs[k])
      && (id !in jobs <==> result == NotFound)
      && (id !in jobs ==> job.None?)
      && (result != Accepted ==> after == jobs)
      && (result == Accepted ==> after[id].cancelRequested && (after[id].status == Cancelled || after[id].status == Cancelling))
      && (id in jobs ==> job == Some(after[id]))
  {
    if id in jobs {
      var (r, result) := CancelRecord(jobs[id], now);
      if jobs[id].status.IsTerminal() {
        CancelLeavesFinishedJobsAlone(jobs[id], now);
        assert jobs[id := r] == jobs;
      } else {
        CancelAcceptedEffect(jobs[id], now);
      }
    }
  }

  /** `_is_cancel_requested`. */
  predicate CancelRequested(jobs: map<string, JobRecord>, id: string) {
    id in jobs && jobs[id].cancelRequested
  }

  /** Once a cancel request is accepted, the worker sees it at its next check. */
  lemma AcceptedCancelIsSeen(jobs: map<string, JobRecord>, id: string, now: real)
    requires CancelIn(jobs, id, now).2 == Accepted
    ensures CancelRequested(CancelIn(jobs, id, now).0, id)
  {
    CancelInFrame(jobs, id, now);
  }

  /** A finished job that has not been touched for `JobTtlSeconds`. */
  predicate Expired(job: JobRecord, now: real) {
    job.status.IsTerminal() && now - job.updatedAt >= JobTtlSeconds
  }

  /** The table `_cleanup_expired_jobs` leaves behind. */
  function Unexpired(jobs: map<string, JobRecord>, now: real): map<string, JobRecord> {
    map id | id in jobs && !Expired(jobs[id], now) :: jobs[id]
  }

  /**
   * Cleanup removes exactly the expired jobs and keeps every other one
   * unchanged; in particular no unfinished job is ever removed.
   */
  lemma UnexpiredKeepsTheRest(jobs: map<string, JobRecord>, now: real)
    ensures var after := Unexpired(jobs, now);
      && (forall id :: id in after <==> id in jobs && !Expired(jobs[id], now))
      && (forall id :: id in after ==> after[id] == jobs[id])
      && (forall id :: id in jobs && !jobs[id].status.IsTerminal() ==> id in after)
  {
  }

  /** A second cleanup at the same instant finds nothing more to remove. */
  lemma UnexpiredIdempotent(jobs: map<string, JobRecord>, now: real)
    ensures Unexpired(Unexpired(jobs, now), now) == Unexpired(jobs, now)
  {
  }

  /** The `"job"` object of `_serialize_job`; `percent` is not part of this model. */
  datatype JobView = JobView(
    jobId: string,
    status: string,
    message: string,
    mode: string,
    current: int,
    total: int,
    outputCount: int,
    errorCount: nat,
    errors: seq<ErrorItem>,
    createdAt: real,
    updatedAt: real,
    cancelRequested: bool,
    canCancel: bool,
    cancelUrl: string,
    downloadUrl: Option<string>)

  function CancelUrl(jobId: string): string {
    "/api/jobs/" + jobId + "/cancel"
  }

  function DownloadUrl(jobId: string): string {
    "/api/jobs/" + jobId + "/download"
  }

  /** `_serialize_job`. */
  function Serialize(job: JobRecord): JobView {
    JobView(
      job.jobId, job.status.Name(), job.message, job.mode.Name(),
      job.current, job.total, job.outputCount, |job.errors|, job.errors,
      job.createdAt, job.updatedAt, job.cancelRequested,
      job.status == Queued || job.status == Waiting || job.status == Running || job.status == Cancelling,
      CancelUrl(job.jobId),
      if job.status == Done then Some(DownloadUrl(job.jobId)) else None)
  }

  /**
   * The snapshot offers cancelling exactly while the job has not finished,
   * offers the download exactly when it is done, counts every error, and
   * names the status so that it can be read back.
   */
  lemma SerializeAgreesWithStatus(job: JobRecord)
    ensures var v := Serialize(job);
      && (v.canCancel <==> !job.status.IsTerminal())
      && (v.downloadUrl.Some? <==> job.status == Done)
      && v.errorCount == |v.errors| == |job.errors|
      && (forall s: Status :: v.status == s.Name() ==> s == job.status)
  {
    forall s: Status | Serialize(job).status == s.Name() ensures s == job.status {
      StatusNamesDistinct(s, job.status);
    }
  }
}
