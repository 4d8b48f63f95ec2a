/** The web application's bookkeeping of background jobs, one request at a
    time: the active-job counter behind `_claim_job_slot` and
    `_release_job_slot`, the pause, resume and stop handlers every job kind
    shares, and `_cleanup_old_jobs`. Locks and threads are not modelled;
    times are whole seconds. */
module Jobs {
  import opened Common

  /** `JobCapacityError`: the count and the configured maximum it reports. */
  datatype CapacityError = TooManyActiveJobs(active: int, limit: int)

  /** ACTIVE_JOBS_COUNT and MAX_ACTIVE_JOBS. */
  class JobSlots {
    var active: int
    const limit: int

    /** The counter never exceeds the capacity, `max(1, MAX_ACTIVE_JOBS)`,
        and never goes below zero. */
    ghost predicate Valid()
      reads this
    {
      0 <= active <= Max(1, limit)
    }

    constructor (limit: int)
      ensures this.limit == limit && active == 0
      ensures Valid()
    {
      this.limit := limit;
      active := 0;
    }

    /** `_claim_job_slot`: a full counter raises and changes nothing;
        otherwise the counter goes up by one and stays within capacity. */
    method Claim() returns (r: Result<(), CapacityError>)
      modifies this
      ensures old(active) >= Max(1, limit) ==> r == Err(TooManyActiveJobs(old(active), limit)) && active == old(active)
      ensures old(active) < Max(1, limit) ==> r == Ok(()) && active == old(active) + 1
      ensures r.Ok? ==> active <= Max(1, limit)
      ensures old(Valid()) ==> Valid()
    {
      if active >= Max(1, limit) {
        return Err(TooManyActiveJobs(active, limit));
      }
      active := active + 1;
      r := Ok(());
    }

    /** `_release_job_slot`: one less, never below zero. */
    method Release()
      modifies this
      ensures active == Max(0, old(active) - 1)
      ensures active >= 0
      ensures old(Valid()) ==> Valid()
    {
      active := Max(0, active - 1);
    }
  }

  // ---------------------------------------------------------------------
  // Pause, resume, stop

  /** The fields of a job record the handlers read and write. `startedAt`
      is 0 when the record has no start time. */
  datatype Job = Job(state: string, paused: bool, cancelled: bool, startedAt: int, progress: map<string, string>)

  /** The handlers' answers: `{"ok": true}`, 404 "Job not found" and 400
      "Job already finished". */
  datatype Reply = Accepted | NotFound | AlreadyFinished

  function StatusCode(r: Reply): int {
    match r
    case Accepted => 200
    case NotFound => 404
    case AlreadyFinished => 400
  }

  predicate Finished(j: Job) { j.state == "done" || j.state == "error" }

  /** What pause does to a job. */
  function Paused(j: Job): (r: Job)
    ensures r.paused && r.state == "paused"
    ensures r.cancelled == j.cancelled && r.startedAt == j.startedAt && r.progress == j.progress
  {
    j.(paused := true, state := "paused")
  }

  /** What resume does: no longer paused, and a paused job runs again. */
  function Resumed(j: Job): (r: Job)
    ensures !r.paused
    ensures r.state == (if j.state == "paused" then "running" else j.state)
    ensures r.cancelled == j.cancelled && r.startedAt == j.startedAt && r.progress == j.progress
  {
    j.(paused := false, state := if j.state == "paused" then "running" else j.state)
  }

  /** What stop does: cancelled, not paused, stopping. */
  function Stopped(j: Job): (r: Job)
    ensures r.cancelled && !r.paused && r.state == "stopping"
    ensures r.startedAt == j.startedAt && r.progress == j.progress
  {
    j.(cancelled := true, paused := false, state := "stopping")
  }

  /** `download_resume` also notes the resumption in the progress. */
  function ResumedDownload(j: Job): (r: Job)
    ensures r == Resumed(j).(progress := j.progress["message" := "Resuming..."])
  {
    Resumed(j).(progress := j.progress["message" := "Resuming..."])
  }

  /** Resuming a running job that was paused gives it back as it was. */
  lemma ResumeUndoesPause(j: Job)
    requires j.state == "running" && !j.paused
    ensures Resumed(Paused(j)) == j
  {
  }

  /** Once stopped, a job stays cancelled whatever pause and resume do, and
      stopping again changes nothing. */
  lemma StopIsFinal(j: Job)
    ensures Paused(Stopped(j)).cancelled && Resumed(Stopped(j)).cancelled
    ensures Stopped(Stopped(j)) == Stopped(j)
    ensures Resumed(Stopped(j)) == Stopped(j)
  {
  }

  /** One map of jobs by id (JOBS, MISSING_JOBS, INSPECT_JOBS, ...). */
  class JobTable {
    var jobs: map<string, Job>

    constructor ()
      ensures jobs == map[]
    {
      jobs := map[];
    }

    /** Looks the job up and rejects a missing or finished one. */
    function Check(id: string): (r: Reply)
      reads this
      ensures r == NotFound <==> id !in jobs
      ensures r == AlreadyFinished <==> id in jobs && Finished(jobs[id])
    {
      if id !in jobs then NotFound
      else if Finished(jobs[id]) then AlreadyFinished
      else Accepted
    }

    /** `*_pause`: an unfinished job is paused; otherwise nothing changes. */
    method Pause(id: string) returns (r: Reply)
      modifies this
      ensures r == old(Check(id))
      ensures r == Accepted ==> jobs == old(jobs)[id := Paused(old(jobs)[id])]
      ensures r != Accepted ==> jobs == old(jobs)
    {
      r := Check(id);
      if r == Accepted {
        jobs := jobs[id := Paused(jobs[id])];
      }
    }

    /** `*_resume` (and `download_resume` when `download` is set). */
    method Resume(id: string, download: bool) returns (r: Reply)
      modifies this
      ensures r == old(Check(id))
      ensures r == Accepted ==>
                jobs == old(jobs)[id := if download then ResumedDownload(old(jobs)[id]) else Resumed(old(jobs)[id])]
      ensures r != Accepted ==> jobs == old(jobs)
    {
      r := Check(id);
      if r == Accepted {
        jobs := jobs[id := if download then ResumedDownload(jobs[id]) else Resumed(jobs[id])];
      }
    }

    /** `*_stop`: an unfinished job is asked to stop. */
    method Stop(id: string) returns (r: Reply)
      modifies this
      ensures r == old(Check(id))
      ensures r == Accepted ==> jobs == old(jobs)[id := Stopped(old(jobs)[id])]
      ensures r != Accepted ==> jobs == old(jobs)
    {
      r := Check(id);
      if r == Accepted {
        jobs := jobs[id := Stopped(jobs[id])];
      }
    }

    /** `_cleanup_old_jobs` on this map: drops the expired jobs, keeps the
        rest as they were. */
    method CleanupOldJobs(now: int, retention: int)
      modifies this
      ensures jobs == Survivors(old(jobs), now, retention)
    {
      var pending := jobs.Keys;
      ghost var start := jobs;
      while pending != {}
        invariant pending <= start.Keys
        invariant forall k :: k in jobs <==> k in start && (k in pending || !Expired(start[k], now, retention))
        invariant forall k :: k in jobs ==> jobs[k] == start[k]
        decreases |pending|
      {
        var k :| k in pending;
        if Expired(jobs[k], now, retention) {
          jobs := jobs - {k};
        }
        pending := pending - {k};
      }
      assert jobs == Survivors(start, now, retention);
    }
  }

  // ---------------------------------------------------------------------
  // Expiry

  /** The states a job ends in. */
  predicate Terminal(j: Job) {
    j.state == "done" || j.state == "error" || j.state == "stopped" || j.state == "cancelled"
  }

  /** A job is expired when it has ended and started more than
      `max(60, retention)` seconds ago; one with no start time counts as
      starting now. */
  predicate Expired(j: Job, now: int, retention: int) {
    Terminal(j) && now - (if j.startedAt == 0 then now else j.startedAt) > Max(60, retention)
  }

  function Survivors(jobs: map<string, Job>, now: int, retention: int): (r: map<string, Job>)
    ensures forall k :: k in r <==> k in jobs && !Expired(jobs[k], now, retention)
    ensures forall k :: k in r ==> r[k] == jobs[k]
  {
    map k | k in jobs && !Expired(jobs[k], now, retention) :: jobs[k]
  }

  /** Cleanup never drops a job that is still going, nor one younger than a
      minute, nor one without a start time, and drops every other job whose
      retention has run out. */
  lemma CleanupKeepsLiveJobs(jobs: map<string, Job>, now: int, retention: int, k: string)
    requires k in jobs
    ensures !Terminal(jobs[k]) ==> k in Survivors(jobs, now, retention)
    ensures jobs[k].startedAt == 0 ==> k in Survivors(jobs, now, retention)
    ensures now - jobs[k].startedAt <= 60 ==> k in Survivors(jobs, now, retention)
    ensures Terminal(jobs[k]) && jobs[k].startedAt != 0 && now - jobs[k].startedAt > Max(60, retention)
            ==> k !in Survivors(jobs, now, retention)
  {
  }

  /** Cleaning up twice at the same moment is cleaning up once. */
  lemma CleanupIdempotent(jobs: map<string, Job>, now: int, retention: int)
    ensures Survivors(Survivors(jobs, now, retention), now, retention) == Survivors(jobs, now, retention)
  {
    var once := Survivors(jobs, now, retention);
    assert Survivors(once, now, retention).Keys == once.Keys;
  }
}
