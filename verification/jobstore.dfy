/**
 * The shared `JOBS` dictionary and the functions that touch it under
 * `JOBS_LOCK`. Each method runs as one atomic step, which is what holding
 * the lock guarantees; `now` is the `time.time()` reading of that step.
 */
module JobStore {
  import opened Wrappers
  import opened Jobs

  class JobTable {
    var jobs: map<string, JobRecord>

    constructor()
      ensures jobs == map[]
    {
      jobs := map[];
    }

    /** `len(JOBS)`. */
    function Count(): nat
      reads this
    {
      |jobs|
    }

    /** `JOBS[job.job_id] = job`, as `do_POST` files a new job. */
    method Insert(job: JobRecord)
      modifies this
      ensures jobs == old(jobs)[job.jobId := job]
    {
      jobs := jobs[job.jobId := job];
    }

    /**
     * `_update_job`: the named fields of the job and its timestamp change;
     * the updated record is returned, or `None` for an unknown id.
     */
    method UpdateJob(id: string, ch: Changes, now: real) returns (r: Option<JobRecord>)
      modifies this
      ensures jobs == UpdatedJobs(old(jobs), id, ch, now)
      ensures r.None? <==> id !in old(jobs)
      ensures r.Some? ==> r.value == jobs[id] == Apply(old(jobs)[id], ch, now)
    {
      if id !in jobs {
        return None;
      }
      var job := Apply(jobs[id], ch, now);
      jobs := jobs[id := job];
      r := Some(job);
    }

    /** `_is_cancel_requested`: false for an unknown id. */
    method IsCancelRequested(id: string) returns (b: bool)
      ensures b <==> id in jobs && jobs[id].cancelRequested
    {
      b := id in jobs && jobs[id].cancelRequested;
    }

    /** `_request_cancel`. */
    method RequestCancel(id: string, now: real) returns (job: Option<JobRecord>, result: CancelResult)
      modifies this
      ensures (jobs, job, result) == CancelIn(old(jobs), id, now)
    {
      if id !in jobs {
        return None, NotFound;
      }
      var r;
      r, result := CancelRecord(jobs[id], now).0, CancelRecord(jobs[id], now).1;
      if result == Accepted {
        jobs := jobs[id := r];
      } else {
        assert r == jobs[id];
        assert jobs[id := r] == jobs;
      }
      job := Some(r);
    }

    /**
     * `_cleanup_expired_jobs`: one pass collects the ids of the expired
     * jobs, a second pass removes them. Those ids are returned: they are
     * the jobs whose workspaces are deleted.
     */
    method CleanupExpired(now: real) returns (expired: seq<string>)
      modifies this
      ensures jobs == Unexpired(old(jobs), now)
      ensures forall id :: id in expired <==> id in old(jobs) && Expired(old(jobs)[id], now)
    {
      expired := CollectExpired(now);
      var i := 0;
      while i < |expired|
        invariant 0 <= i <= |expired|
        invariant jobs.Keys == old(jobs).Keys - set k | k in expired[..i]
        invariant forall k :: k in jobs ==> jobs[k] == old(jobs)[k]
      {
        assert expired[..i + 1] == expired[..i] + [expired[i]];
        jobs := jobs - {expired[i]};
        i := i + 1;
      }
      assert expired[..i] == expired;
    }

    /** The first pass of `_cleanup_expired_jobs`. */
    method CollectExpired(now: real) returns (expired: seq<string>)
      ensures forall id :: id in expired <==> id in jobs && Expired(jobs[id], now)
    {
      var pending := jobs.Keys;
      expired := [];
      while pending != {}
        invariant pending <= jobs.Keys
        invariant forall id :: id in expired ==> id in jobs && Expired(jobs[id], now)
        invariant forall id :: id in jobs && id !in pending && Expired(jobs[id], now) ==> id in expired
        decreases |pending|
      {
        var id :| id in pending;
        if Expired(jobs[id], now) {
          expired := expired + [id];
        }
        pending := pending - {id};
      }
    }
  }
}
