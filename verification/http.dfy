/**
 * The request handlers of the web server: routing on the request path,
 * the admission checks of `do_POST`, the job status and download endpoint,
 * and the cancel endpoint. A reply is the status code and the JSON (or
 * file) it carries; the socket plumbing is not part of this model.
 */
module Http {
  import opened Wrappers
  import opened Text
  import opened Paths
  import opened Jobs
  import opened WebHelpers
  import JobStore

  const MaxRequestBytes := 512 * 1024 * 1024
  const MaxLiveJobs := 500
  const DefaultZipName := "semi-utils-output.zip"

  /** What a handler sends back. */
  datatype Reply =
    | Page                                                      // 200, the HTML front end
    | Health(time: int)                                         // 200, {"ok": true, "time": ...}
    | PlainNotFound                                             // 404, "Not Found" as text
    | Failure(status: int, code: string, message: string)       // `_error_response`
    | Snapshot(status: int, view: JobView)                      // `_serialize_job`
    | Archive(status: int, zipPath: string, filename: string)   // the zip file as an attachment
    | Created(status: int, jobId: string, statusUrl: string, cancelUrl: string, downloadUrl: string)

  function StatusUrl(jobId: string): string {
    "/api/jobs/" + jobId
  }

  /** `self.path.split("?", 1)[0]`: the path without its query string. */
  function PathOnly(raw: string): (p: string)
    ensures '?' !in p
  {
    Split(raw, '?')[0]
  }

  /** The non-empty pieces of a list of parts, in order. */
  function NonEmpty(parts: seq<string>): (r: seq<string>)
    ensures forall i :: 0 <= i < |r| ==> r[i] != "" && r[i] in parts
  {
    if |parts| == 0 then []
    else (if parts[0] == "" then [] else [parts[0]]) + NonEmpty(parts[1..])
  }

  /** `[part for part in path.split("/") if part]` on the path without its query string. */
  function Parts(raw: string): seq<string> {
    NonEmpty(Split(PathOnly(raw), '/'))
  }

  datatype GetRoute = IndexPage | HealthCheck | JobResource | NoRoute

  /** `do_GET`'s dispatch. */
  function RouteGet(raw: string): GetRoute {
    var p := PathOnly(raw);
    if p == "/" then IndexPage
    else if p == "/health" then HealthCheck
    else if StartsWith(p, "/api/jobs/") then JobResource
    else NoRoute
  }

  datatype PostRoute = CancelJob | SubmitJob | NoEndpoint

  /** `do_POST`'s dispatch. */
  function RoutePost(raw: string): PostRoute {
    var p := PathOnly(raw);
    if StartsWith(p, "/api/jobs/") && EndsWith(p, "/cancel") then CancelJob
    else if p == "/api/process" then SubmitJob
    else NoEndpoint
  }

  /** `_handle_get_job`: the job's snapshot, or its archive under `.../download`. */
  function GetJob(raw: string, jobs: map<string, JobRecord>, onDisk: set<string>): Reply {
    var parts := Parts(raw);
    if |parts| < 3 then Failure(404, "not_found", "Invalid job path")
    else if parts[2] !in jobs then Failure(404, "job_not_found", "Job not found or expired")
    else
      var job := jobs[parts[2]];
      if |parts| == 3 then Snapshot(200, Serialize(job))
      else if |parts| == 4 && parts[3] == "download" then
        if job.status != Done || job.zipPath.None? || job.zipPath.value !in onDisk then
          Failure(409, "result_not_ready", "Job is not completed yet")
        else
          var name := if job.outputFilename.None? || job.outputFilename.value == "" then DefaultZipName
                      else job.outputFilename.value;
          Archive(200, job.zipPath.value, name)
      else Failure(404, "not_found", "Invalid job endpoint")
  }

  /** `do_GET`; `now` is the clock reading the health check reports. */
  function DoGet(raw: string, jobs: map<string, JobRecord>, onDisk: set<string>, now: real): Reply {
    match RouteGet(raw)
    case IndexPage => Page
    case HealthCheck => Health(now.Floor)
    case JobResource => GetJob(raw, jobs, onDisk)
    case NoRoute => PlainNotFound
  }

  /** `_handle_cancel_job`: the table afterwards and the reply. */
  function CancelResponse(raw: string, jobs: map<string, JobRecord>, now: real): (map<string, JobRecord>, Reply) {
    var parts := Parts(raw);
    if |parts| != 4 || parts[0] != "api" || parts[1] != "jobs" || parts[3] != "cancel" then
      (jobs, Failure(404, "not_found", "Invalid job path"))
    else
      var (after, job, result) := CancelIn(jobs, parts[2], now);
      if job.None? then (after, Failure(404, "job_not_found", "Job not found or expired"))
      else if result == Terminal then
        (after, Failure(409, "cannot_cancel", "Job already finished with status " + job.value.status.Name()))
      else (after, Snapshot(202, Serialize(job.value)))
  }

  /** The parts of a POST request the handler looks at. */
  datatype Request = Request(
    path: string,
    contentLength: Option<string>,
    contentType: Option<string>,
    /** What `cgi.FieldStorage` raised, if anything. */
    formError: Option<string>,
    previewChecked: bool,
    previewMaxSize: Option<string>,
    previewQuality: Option<string>,
    files: seq<UploadItem>)

  /**
   * The checks `do_POST` makes before it reads any upload, in its order;
   * `None` when the request gets through all of them.
   */
  function Admission(req: Request, liveJobs: nat): Option<Reply> {
    var length := ParseInt(req.contentLength, 0, None, None);
    if PathOnly(req.path) != "/api/process" then Some(Failure(404, "not_found", "Endpoint not found"))
    else if length <= 0 then Some(Failure(400, "bad_request", "Empty request body"))
    else if length > MaxRequestBytes then
      Some(Failure(413, "request_too_large", "Request exceeds maximum size (" + IntToString(MaxRequestBytes) + " bytes)"))
    else if !Contains(req.contentType.GetOr(""), "multipart/form-data") then
      Some(Failure(400, "bad_content_type", "Content-Type must be multipart/form-data"))
    else if liveJobs >= MaxLiveJobs then
      Some(Failure(503, "job_queue_full", "Too many active jobs. Please retry later."))
    else if req.formError.Some? then
      Some(Failure(400, "invalid_form", "Cannot parse form data: " + req.formError.value))
    else None
  }

  /**
   * `do_POST`. A submission that passes every check is filed as a new
   * queued job under `jobId` (the `uuid4` the source draws) with its
   * uploads stored under `workspace` (the directory `mkdtemp` made).
   */
  method DoPost(table: JobStore.JobTable, req: Request, jobId: string, workspace: string, now: real) returns (reply: Reply)
    modifies table
    ensures reply.Created? ==> |old(table.jobs)| < MaxLiveJobs
    ensures RoutePost(req.path) == CancelJob ==> (table.jobs, reply) == CancelResponse(req.path, old(table.jobs), now)
    ensures RoutePost(req.path) != CancelJob ==> Submitted(old(table.jobs), table.jobs, req, jobId, workspace, now, reply)
  {
    if RoutePost(req.path) == CancelJob {
      reply := HandleCancel(table, req.path, now);
      return;
    }
    reply := Submit(table, req, jobId, workspace, now);
  }

  /**
   * What a submission does to the table and what it answers: a refused
   * request changes nothing; an accepted one files a new queued job whose
   * inputs are the uploads in form order, each under the name
   * `_unique_path` picks for it in the workspace's input directory, and
   * answers with the job's URLs.
   */
  ghost predicate Submitted(jobs: map<string, JobRecord>, jobs': map<string, JobRecord>, req: Request,
                      jobId: string, workspace: string, now: real, reply: Reply) {
    && (Admission(req, |jobs|).Some? ==> reply == Admission(req, |jobs|).value && jobs' == jobs)
    && (Admission(req, |jobs|).None? && UploadRejection(req.files).Some? ==>
          reply == Failure(400, "invalid_input", UploadRejection(req.files).value) && jobs' == jobs)
    && (Admission(req, |jobs|).None? && UploadRejection(req.files).None? ==>
          && reply == Created(202, jobId, StatusUrl(jobId), CancelUrl(jobId), DownloadUrl(jobId))
          && jobId in jobs'
          && jobs' == jobs[jobId := jobs'[jobId]]
          && var job := jobs'[jobId];
          && job == NewJob(jobId, now, req.previewChecked, job.inputPaths, workspace,
                           ParseInt(req.previewMaxSize, 1600, Some(200), Some(8000)),
                           ParseInt(req.previewQuality, 80, Some(1), Some(100)))
          && |job.inputPaths| == |UploadItems(req.files)|
          && StoredInOrder(UploadItems(req.files), job.inputPaths)
          && (forall i :: 0 <= i < |job.inputPaths| ==> Parent(job.inputPaths[i]) == Normalize(Join(workspace, "input")))
          && (forall i, j :: 0 <= i < j < |job.inputPaths| ==> Name(job.inputPaths[i]) != Name(job.inputPaths[j])))
  }

  /** `do_POST` on `/api/process` (and on any path that is not a cancel URL). */
  method Submit(table: JobStore.JobTable, req: Request, jobId: string, workspace: string, now: real) returns (reply: Reply)
    modifies table
    ensures reply.Created? ==> |old(table.jobs)| < MaxLiveJobs
    ensures Submitted(old(table.jobs), table.jobs, req, jobId, workspace, now, reply)
  {
    var admission := Admission(req, table.Count());
    if admission.Some? {
      return admission.value;
    }
    var maxSize := ParseInt(req.previewMaxSize, 1600, Some(200), Some(8000));
    var quality := ParseInt(req.previewQuality, 80, Some(1), Some(100));
    var uploads := ExtractUploads(req.files, Join(workspace, "input"));
    if uploads.Rejected? {
      return Failure(400, "invalid_input", uploads.message);
    }
    var record := NewJob(jobId, now, req.previewChecked, uploads.paths, workspace, maxSize, quality);
    table.Insert(record);
    reply := Created(202, jobId, StatusUrl(jobId), CancelUrl(jobId), DownloadUrl(jobId));
  }

  /**
   * The source counts the live jobs and files the new one under two
   * separate holds of the lock, with the uploads stored in between. Two
   * submissions checked against the same 499 live jobs are both admitted,
   * and filing both leaves 501: the cap bounds the jobs seen at each check,
   * not the table.
   */
  lemma AdmittedTogetherPassTheCap(jobs: map<string, JobRecord>, first: Request, second: Request, a: JobRecord, b: JobRecord)
    requires |jobs| == MaxLiveJobs - 1
    requires Admission(first, |jobs|).None? && Admission(second, |jobs|).None?
    requires a.jobId !in jobs && b.jobId !in jobs && a.jobId != b.jobId
    ensures |jobs[a.jobId := a][b.jobId := b]| == MaxLiveJobs + 1
  {
    assert b.jobId !in jobs[a.jobId := a];
  }

  /** `_handle_cancel_job` on the shared table. */
  method HandleCancel(table: JobStore.JobTable, raw: string, now: real) returns (reply: Reply)
    modifies table
    ensures (table.jobs, reply) == CancelResponse(raw, old(table.jobs), now)
    ensures table.jobs.Keys == old(table.jobs).Keys
  {
    var parts := Parts(raw);
    if |parts| != 4 || parts[0] != "api" || parts[1] != "jobs" || parts[3] != "cancel" {
      return Failure(404, "not_found", "Invalid job path");
    }
    CancelInFrame(table.jobs, parts[2], now);
    var job, result := table.RequestCancel(parts[2], now);
    if job.None? {
      return Failure(404, "job_not_found", "Job not found or expired");
    }
    if result == Terminal {
      return Failure(409, "cannot_cancel", "Job already finished with status " + job.value.status.Name());
    }
    reply := Snapshot(202, Serialize(job.value));
  }

  /** A string without the separator is its own single part, so neither `?` nor `/` splits a job id. */
  lemma PathOfUrl(url: string)
    requires '?' !in url
    ensures PathOnly(url) == url
  {
    SplitNoSeparator(url, '?');
  }

  lemma SplitOfUrl(parts: seq<string>, url: string)
    requires |parts| >= 1 && url == JoinWith(parts, '/')
    requires forall i :: 0 <= i < |parts| ==> '/' !in parts[i]
    requires '?' !in url
    ensures Parts(url) == NonEmpty(parts)
  {
    PathOfUrl(url);
    SplitJoin(parts, '/');
  }

  lemma NonEmptyCons(p: string, rest: seq<string>)
    ensures NonEmpty([p] + rest) == (if p == "" then [] else [p]) + NonEmpty(rest)
  {
    assert ([p] + rest)[1..] == rest;
  }

  lemma JoinCons(p: string, rest: seq<string>)
    requires |rest| >= 1
    ensures JoinWith([p] + rest, '/') == p + ['/'] + JoinWith(rest, '/')
  {
    assert ([p] + rest)[1..] == rest;
  }

  /** A job URL: `/api/jobs/<id>`, then `/` and the tail's components, if any. */
  function JobUrl(id: string, tail: seq<string>): string {
    "/api/jobs/" + id + (if |tail| == 0 then "" else "/" + JoinWith(tail, '/'))
  }

  /** The parts a job URL is joined from: the empty root part, `api`, `jobs`, the id, the tail. */
  function JobUrlPieces(id: string, tail: seq<string>): seq<string> {
    [""] + (["api"] + (["jobs"] + ([id] + tail)))
  }

  lemma JobUrlJoin(id: string, tail: seq<string>)
    ensures JoinWith(JobUrlPieces(id, tail), '/') == JobUrl(id, tail)
  {
    var rest := [id] + tail;
    JoinCons("", ["api"] + (["jobs"] + rest));
    JoinCons("api", ["jobs"] + rest);
    JoinCons("jobs", rest);
    if |tail| > 0 {
      JoinCons(id, tail);
    } else {
      assert rest == [id];
    }
  }

  lemma JobUrlNonEmpty(id: string, tail: seq<string>)
    requires id != "" && forall i :: 0 <= i < |tail| ==> tail[i] != ""
    ensures NonEmpty(JobUrlPieces(id, tail)) == ["api", "jobs", id] + tail
  {
    NonEmptyOfComponents(tail);
    NonEmptyBehindRoot("api", "jobs", id, tail);
  }

  /** Behind an empty root part, three non-empty parts are kept as they are. */
  lemma NonEmptyBehindRoot(a: string, b: string, c: string, rest: seq<string>)
    requires a != "" && b != "" && c != ""
    ensures NonEmpty([""] + ([a] + ([b] + ([c] + rest)))) == [a, b, c] + NonEmpty(rest)
  {
    NonEmptyCons(c, rest);
    NonEmptyCons(b, [c] + rest);
    NonEmptyCons(a, [b] + ([c] + rest));
    NonEmptyCons("", [a] + ([b] + ([c] + rest)));
  }

  /** No piece of a job URL holds a `/` or a `?`. */
  lemma JobUrlPiecesClean(id: string, tail: seq<string>)
    requires IsComponent(id) && '?' !in id
    requires forall i :: 0 <= i < |tail| ==> IsComponent(tail[i]) && '?' !in tail[i]
    ensures var pieces := JobUrlPieces(id, tail);
      forall i :: 0 <= i < |pieces| ==> '/' !in pieces[i] && '?' !in pieces[i]
  {
    var pieces := JobUrlPieces(id, tail);
    forall i | 0 <= i < |pieces| ensures '/' !in pieces[i] && '?' !in pieces[i] {
      if i >= 4 {
        assert pieces[i] == tail[i - 4];
      }
    }
  }

  /** A job URL has no query string and splits into `api`, `jobs`, the id, then the tail. */
  lemma JobUrlParts(id: string, tail: seq<string>)
    requires IsComponent(id) && '?' !in id
    requires forall i :: 0 <= i < |tail| ==> IsComponent(tail[i]) && '?' !in tail[i]
    ensures PathOnly(JobUrl(id, tail)) == JobUrl(id, tail)
    ensures Parts(JobUrl(id, tail)) == ["api", "jobs", id] + tail
  {
    var pieces := JobUrlPieces(id, tail);
    var url := JobUrl(id, tail);
    JobUrlJoin(id, tail);
    JobUrlPiecesClean(id, tail);
    QuestionFreeJoin(pieces);
    PathOfUrl(url);
    SplitOfUrl(pieces, url);
    JobUrlNonEmpty(id, tail);
  }

  /** A job URL with a one-part tail. */
  lemma JobUrlOne(id: string, t: string)
    ensures JobUrl(id, [t]) == "/api/jobs/" + id + "/" + t
  {
    assert JoinWith([t], '/') == t;
  }

  lemma {:induction false} NonEmptyOfComponents(parts: seq<string>)
    requires forall i :: 0 <= i < |parts| ==> parts[i] != ""
    ensures NonEmpty(parts) == parts
  {
    if |parts| > 0 {
      NonEmptyOfComponents(parts[1..]);
    }
  }

  lemma {:induction false} QuestionFreeJoin(parts: seq<string>)
    requires forall i :: 0 <= i < |parts| ==> '?' !in parts[i]
    ensures '?' !in JoinWith(parts, '/')
  {
    if |parts| > 1 {
      QuestionFreeJoin(parts[1..]);
      assert JoinWith(parts, '/') == parts[0] + ['/'] + JoinWith(parts[1..], '/');
    }
  }

  /**
   * The URLs a job's snapshot advertises lead back to that job: the status
   * URL and the download URL are routed to the job endpoint with the id as
   * third part, the cancel URL to the cancel endpoint with the id as third
   * part.
   */
  lemma UrlsRouteBack(id: string)
    requires IsComponent(id) && '?' !in id
    ensures RouteGet(StatusUrl(id)) == JobResource && Parts(StatusUrl(id)) == ["api", "jobs", id]
    ensures RouteGet(DownloadUrl(id)) == JobResource && Parts(DownloadUrl(id)) == ["api", "jobs", id, "download"]
    ensures RoutePost(CancelUrl(id)) == CancelJob && Parts(CancelUrl(id)) == ["api", "jobs", id, "cancel"]
  {
    StatusUrlRoutes(id);
    DownloadUrlRoutes(id);
    CancelUrlRoutes(id);
  }

  lemma StatusUrlRoutes(id: string)
    requires IsComponent(id) && '?' !in id
    ensures RouteGet(StatusUrl(id)) == JobResource && Parts(StatusUrl(id)) == ["api", "jobs", id]
  {
    var url := StatusUrl(id);
    JobUrlParts(id, []);
    assert JobUrl(id, []) == url;
    assert ["api", "jobs", id] + [] == ["api", "jobs", id];
    JobUrlPrefix(id, "");
  }

  lemma DownloadUrlRoutes(id: string)
    requires IsComponent(id) && '?' !in id
    ensures RouteGet(DownloadUrl(id)) == JobResource && Parts(DownloadUrl(id)) == ["api", "jobs", id, "download"]
  {
    var url := DownloadUrl(id);
    JobUrlOne(id, "download");
    assert JobUrl(id, ["download"]) == url;
    JobUrlParts(id, ["download"]);
    assert ["api", "jobs", id] + ["download"] == ["api", "jobs", id, "download"];
    JobUrlPrefix(id, "/download");
  }

  lemma CancelUrlRoutes(id: string)
    requires IsComponent(id) && '?' !in id
    ensures RoutePost(CancelUrl(id)) == CancelJob && Parts(CancelUrl(id)) == ["api", "jobs", id, "cancel"]
  {
    var url := CancelUrl(id);
    JobUrlOne(id, "cancel");
    assert JobUrl(id, ["cancel"]) == url;
    JobUrlParts(id, ["cancel"]);
    assert ["api", "jobs", id] + ["cancel"] == ["api", "jobs", id, "cancel"];
    CancelUrlShape(id);
  }

  /** Every job URL starts with `/api/jobs/`. */
  lemma JobUrlPrefix(id: string, rest: string)
    ensures StartsWith("/api/jobs/" + id + rest, "/api/jobs/")
  {
    var url := "/api/jobs/" + id + rest;
    assert url[..10] == "/api/jobs/";
  }

  lemma CancelUrlShape(id: string)
    ensures StartsWith(CancelUrl(id), "/api/jobs/") && EndsWith(CancelUrl(id), "/cancel")
  {
    var cancel := CancelUrl(id);
    JobUrlPrefix(id, "/cancel");
    assert cancel[|cancel| - 7..] == "/cancel";
  }

  /**
   * The status URL of a live job returns its snapshot; its download URL
   * returns the archive exactly when the job is done and its archive is on
   * disk; an unknown or reaped job is reported as such on both.
   */
  lemma GetJobServes(id: string, jobs: map<string, JobRecord>, onDisk: set<string>)
    requires IsComponent(id) && '?' !in id
    ensures id !in jobs ==> GetJob(StatusUrl(id), jobs, onDisk) == Failure(404, "job_not_found", "Job not found or expired")
    ensures id !in jobs ==> GetJob(DownloadUrl(id), jobs, onDisk) == Failure(404, "job_not_found", "Job not found or expired")
    ensures id in jobs ==> GetJob(StatusUrl(id), jobs, onDisk) == Snapshot(200, Serialize(jobs[id]))
    ensures id in jobs ==>
      (GetJob(DownloadUrl(id), jobs, onDisk).Archive? <==>
        jobs[id].status == Done && jobs[id].zipPath.Some? && jobs[id].zipPath.value in onDisk)
    ensures id in jobs && GetJob(DownloadUrl(id), jobs, onDisk).Archive? ==>
      GetJob(DownloadUrl(id), jobs, onDisk).zipPath == jobs[id].zipPath.value
    ensures id in jobs && !GetJob(DownloadUrl(id), jobs, onDisk).Archive? ==>
      GetJob(DownloadUrl(id), jobs, onDisk) == Failure(409, "result_not_ready", "Job is not completed yet")
  {
    StatusUrlRoutes(id);
    DownloadUrlRoutes(id);
  }

  /** The query string plays no part in routing: `_path_only` drops everything from the first `?`. */
  lemma QueryIgnored(path: string, query: string)
    requires '?' !in path
    ensures PathOnly(path + "?" + query) == path
  {
    SplitConcat(path, query, '?');
    SplitNoSeparator(path, '?');
  }

  /**
   * `do_GET` serves the page at `/`, the health check at `/health`, the job
   * endpoints under `/api/jobs/`, and a plain 404 anywhere else, whatever
   * query string the request carries.
   */
  lemma DoGetRoutes(path: string, query: string, jobs: map<string, JobRecord>, onDisk: set<string>, now: real)
    requires '?' !in path
    ensures DoGet(path + "?" + query, jobs, onDisk, now) == DoGet(path, jobs, onDisk, now)
    ensures path == "/" ==> DoGet(path, jobs, onDisk, now) == Page
    ensures path == "/health" ==> DoGet(path, jobs, onDisk, now) == Health(now.Floor)
    ensures path != "/" && path != "/health" && StartsWith(path, "/api/jobs/") ==>
      DoGet(path, jobs, onDisk, now) == GetJob(path, jobs, onDisk)
    ensures path != "/" && path != "/health" && !StartsWith(path, "/api/jobs/") ==>
      DoGet(path, jobs, onDisk, now) == PlainNotFound
  {
    QueryIgnored(path, query);
    PathOfUrl(path);
  }

  /**
   * Posting to a job's cancel URL performs `_request_cancel` on that job:
   * an unknown job is 404, a done or failed one 409 and left as it was;
   * otherwise 202 with a snapshot showing the job cancelled or cancelling,
   * with the request recorded unless it had been cancelled already.
   */
  lemma CancelEndpoint(id: string, jobs: map<string, JobRecord>, now: real)
    requires IsComponent(id) && '?' !in id
    ensures var (after, reply) := CancelResponse(CancelUrl(id), jobs, now);
      && after == CancelIn(jobs, id, now).0
      && (id !in jobs ==> reply == Failure(404, "job_not_found", "Job not found or expired"))
      && (id in jobs && (jobs[id].status == Done || jobs[id].status == Error) ==>
            after == jobs && reply.Failure? && reply.status == 409 && reply.code == "cannot_cancel")
      && (id in jobs && !(jobs[id].status == Done || jobs[id].status == Error) ==>
            && reply.Snapshot? && reply.status == 202
            && (reply.view.status == Cancelled.Name() || reply.view.status == Cancelling.Name())
            && (jobs[id].status != Cancelled ==> reply.view.cancelRequested))
  {
    CancelUrlRoutes(id);
    CancelInFrame(jobs, id, now);
    if id in jobs {
      if jobs[id].status.IsTerminal() {
        CancelLeavesFinishedJobsAlone(jobs[id], now);
      } else {
        CancelAcceptedEffect(jobs[id], now);
      }
    }
  }

  /**
   * A submission gets past the checks exactly when it is a POST to
   * `/api/process` with a declared length in (0, 512 MiB], a multipart
   * content type, a form that parses, and fewer than 500 live jobs.
   */
  lemma AdmissionGates(req: Request, liveJobs: nat)
    ensures Admission(req, liveJobs).None? <==>
      && PathOnly(req.path) == "/api/process"
      && 0 < ParseInt(req.contentLength, 0, None, None) <= MaxRequestBytes
      && Contains(req.contentType.GetOr(""), "multipart/form-data")
      && liveJobs < MaxLiveJobs
      && req.formError.None?
    ensures Admission(req, liveJobs).Some? ==> Admission(req, liveJobs).value.Failure?
  {
  }

  /**
   * A `Content-Length` of more than 4300 digits is not a number to `int()`,
   * so `_parse_int` reads it as 0 and the request is an empty body, not an
   * oversized one.
   */
  lemma LongContentLengthIsEmpty(req: Request, liveJobs: nat, digits: string)
    requires PathOnly(req.path) == "/api/process"
    requires WellFormedDigits(digits) && |RemoveUnderscores(digits)| > MaxStrDigits
    requires req.contentLength == Some(digits)
    ensures Admission(req, liveJobs) == Some(Failure(400, "bad_request", "Empty request body"))
  {
    ParseIntFallsBackOnLongNumbers("", digits, 0, None, None);
    assert "" + digits == digits;
  }
}
