/**
 * The request handlers of main.py over an in-memory user table and job
 * table. Each handler is one atomic read-modify-write of the store.
 */
module Service {
  import opened Wrappers
  import opened Jobs
  import opened Ledger
  import opened Store

  class GpuService {
    /** The user table, keyed by user id. */
    var users: map<nat, User>
    /** The job table, keyed by job id. */
    var jobs: map<nat, Job>
    /** The ids the store hands out next; ids are never reused. */
    var nextUserId: nat
    var nextJobId: nat
    /** Per user, the durations of their jobs deleted while not PENDING (quota spent for good). */
    ghost var consumed: map<nat, int>
    /** The job rows committed through `SaveJob`, oldest first. */
    ghost var commits: seq<Job>

    ghost predicate Valid()
      reads this
    {
      Invariant(users, jobs, nextUserId, nextJobId, consumed)
    }

    constructor ()
      ensures Valid()
      ensures users == map[] && jobs == map[] && consumed == map[] && commits == []
    {
      users, jobs := map[], map[];
      nextUserId, nextJobId := 1, 1;
      consumed, commits := map[], [];
    }

    /** `register_user`: a duplicate username is refused; "admin" is made an admin with the larger grant. */
    method RegisterUser(username: string) returns (r: Result<nat, ApiError>)
      requires Valid()
      modifies this
      ensures Valid()
      ensures jobs == old(jobs)
      ensures UsernameTaken(old(users), username) ==>
                r == Failure(DuplicateUsername) && users == old(users) && consumed == old(consumed)
      ensures !UsernameTaken(old(users), username) ==>
                r.Success? && r.value !in old(users)
                && users == old(users)[r.value := User(r.value, username, username == ADMIN_USERNAME, DefaultQuota(username))]
                && consumed == old(consumed)[r.value := 0]
    {
      if exists k :: k in users && users[k].username == username {
        return Failure(DuplicateUsername);
      }
      var isAdminRole := username == ADMIN_USERNAME;
      var defaultQuota := if isAdminRole then ADMIN_QUOTA else USER_QUOTA;
      var id := nextUserId;
      RegisterPreserves(users, jobs, nextUserId, nextJobId, consumed, username);
      users := users[id := User(id, username, isAdminRole, defaultQuota)];
      consumed := consumed[id := 0];
      nextUserId := nextUserId + 1;
      r := Success(id);
    }

    /** `charge_quota`: a placeholder that reports the caller's quota and changes nothing. */
    method ChargeQuota(caller: nat, amount: int) returns (currentQuota: int)
      requires caller in users
      ensures currentQuota == users[caller].quota
    {
      currentQuota := users[caller].quota;
    }

    /**
     * `create_job`: the checks of `CheckAdmission` in source order; the
     * first failure leaves the store untouched. On success the caller is
     * debited the estimated duration and one PENDING job is inserted.
     */
    method CreateJob(caller: nat, req: JobCreate, now: int) returns (r: Result<nat, ApiError>)
      requires Valid() && caller in users
      modifies this
      ensures Valid()
      ensures CheckAdmission(old(users)[caller], old(jobs), req).Some? ==>
                r == Failure(CheckAdmission(old(users)[caller], old(jobs), req).value)
                && users == old(users) && jobs == old(jobs)
      ensures CheckAdmission(old(users)[caller], old(jobs), req).None? ==>
                r.Success? && r.value !in old(jobs)
                && jobs == old(jobs)[r.value := NewJob(r.value, caller, req, now)]
                && users == old(users)[caller := old(users)[caller].(quota := old(users)[caller].quota - req.estimated_duration)]
      ensures r.Success? ==> 0 <= users[caller].quota
      ensures r.Success? ==> forall k :: k in old(jobs) ==> k < r.value
      ensures consumed == old(consumed)
    {
      // 1. resource bounds
      if req.gpu_count <= 0 {
        return Failure(TooFewGpus);
      }
      if req.gpu_count > MAX_GPU_COUNT {
        return Failure(TooManyGpus);
      }
      // 2. command filter
      if AnyIn(DANGEROUS, req.command) {
        return Failure(UnsafeCommand);
      }
      // 3. concurrency cap over the caller's PENDING and RUNNING jobs
      assert users[caller].id == caller;
      var activeJobs := |ActiveJobs(jobs, caller)|;
      if activeJobs >= MAX_ACTIVE_JOBS {
        return Failure(TooManyActiveJobs);
      }
      // 4. quota, read from the caller's current row
      var dbUser := users[caller];
      if dbUser.quota < req.estimated_duration {
        return Failure(InsufficientQuota(dbUser.quota, req.estimated_duration));
      }
      // 5. debit and insert in one step
      var id := nextJobId;
      var newJob := NewJob(id, caller, req, now);
      SubmitPreserves(users, jobs, nextUserId, nextJobId, consumed, newJob);
      users := users[caller := dbUser.(quota := dbUser.quota - req.estimated_duration)];
      jobs := jobs[id := newJob];
      nextJobId := nextJobId + 1;
      r := Success(id);
    }

    /** `read_jobs`: an admin sees the whole table, anyone else exactly their own rows. */
    function ReadJobs(caller: nat): (r: map<nat, Job>)
      reads this
      requires caller in users
      ensures users[caller].is_admin ==> r == jobs
      ensures !users[caller].is_admin ==> forall k :: k in r <==> k in jobs && jobs[k].owner_id == caller
      ensures forall k :: k in r ==> k in jobs && r[k] == jobs[k]
    {
      if users[caller].is_admin then jobs
      else map k | k in jobs && jobs[k].owner_id == caller :: jobs[k]
    }

    /**
     * `update_job_status`: admins only; the status is overwritten with the
     * given text whatever it was before, and no quota moves.
     */
    method UpdateJobStatus(caller: nat, jobId: nat, statusUpdate: string) returns (r: Result<Job, ApiError>)
      requires Valid() && caller in users
      modifies this
      ensures Valid()
      ensures users == old(users) && consumed == old(consumed)
      ensures !old(users)[caller].is_admin ==> r == Failure(Forbidden) && jobs == old(jobs)
      ensures old(users)[caller].is_admin && jobId !in old(jobs) ==> r == Failure(NotFound) && jobs == old(jobs)
      ensures old(users)[caller].is_admin && jobId in old(jobs) ==>
                r == Success(old(jobs)[jobId].(status := statusUpdate))
                && jobs == old(jobs)[jobId := old(jobs)[jobId].(status := statusUpdate)]
    {
      if !users[caller].is_admin {
        return Failure(Forbidden);
      }
      if jobId !in jobs {
        return Failure(NotFound);
      }
      var job := jobs[jobId].(status := statusUpdate);
      RewritePreserves(users, jobs, nextUserId, nextJobId, consumed, jobId, job);
      jobs := jobs[jobId := job];
      r := Success(job);
    }

    /**
     * `delete_job`: the job must exist and the caller must be an admin or its
     * owner. A PENDING job's duration is credited back to its owner (not the
     * caller); any other job is dropped without refund.
     */
    method DeleteJob(caller: nat, jobId: nat) returns (r: Result<(), ApiError>)
      requires Valid() && caller in users
      modifies this
      ensures Valid()
      ensures jobId !in old(jobs) ==>
                r == Failure(NotFound) && users == old(users) && jobs == old(jobs) && consumed == old(consumed)
      ensures jobId in old(jobs) && !old(users)[caller].is_admin && old(jobs)[jobId].owner_id != caller ==>
                r == Failure(Forbidden) && users == old(users) && jobs == old(jobs) && consumed == old(consumed)
      ensures jobId in old(jobs) && (old(users)[caller].is_admin || old(jobs)[jobId].owner_id == caller) ==>
                var job := old(jobs)[jobId];
                && r == Success(())
                && jobs == old(jobs) - {jobId}
                && users == (if job.status == PENDING
                             then old(users)[job.owner_id := old(users)[job.owner_id].(quota := old(users)[job.owner_id].quota + job.estimated_duration)]
                             else old(users))
                && consumed == (if job.status == PENDING
                                then old(consumed)
                                else old(consumed)[job.owner_id := old(consumed)[job.owner_id] + job.estimated_duration])
    {
      if jobId !in jobs {
        return Failure(NotFound);
      }
      var job := jobs[jobId];
      if !users[caller].is_admin && job.owner_id != caller {
        return Failure(Forbidden);
      }
      if job.status == PENDING {
        if job.owner_id in users {
          var owner := users[job.owner_id];
          RefundPreserves(users, jobs, nextUserId, nextJobId, consumed, jobId);
          users := users[job.owner_id := owner.(quota := owner.quota + job.estimated_duration)];
        } else {
          // every job's owner is a registered user
          assert false;
        }
      } else {
        ForfeitPreserves(users, jobs, nextUserId, nextJobId, consumed, jobId);
        consumed := consumed[job.owner_id := consumed[job.owner_id] + job.estimated_duration];
      }
      jobs := jobs - {jobId};
      r := Success(());
    }

    /**
     * A session commit of one rewritten job row, as the worker performs
     * it: the row keeps its id, owner and duration.
     */
    method SaveJob(job: Job)
      requires Valid()
      requires job.id in jobs
      requires job.owner_id == jobs[job.id].owner_id && job.estimated_duration == jobs[job.id].estimated_duration
      modifies this
      ensures Valid()
      ensures users == old(users) && consumed == old(consumed)
      ensures jobs == old(jobs)[job.id := job]
      ensures commits == old(commits) + [job]
    {
      RewritePreserves(users, jobs, nextUserId, nextJobId, consumed, job.id, job);
      jobs := jobs[job.id := job];
      commits := commits + [job];
    }
  }
}
