/**
 * Properties that span several handler calls, proved from the handlers'
 * contracts alone.
 */
module Scenarios {
  import opened Wrappers
  import opened Jobs
  import opened Ledger
  import opened AdmissionFacts
  import opened Service

  /**
   * Submitting a job and deleting it while it is still PENDING gives the
   * caller back exactly the quota debited and leaves both tables as they were.
   */
  method SubmitThenDelete(s: GpuService, caller: nat, req: JobCreate, now: int) returns (r: Result<nat, ApiError>)
    requires s.Valid() && caller in s.users
    modifies s
    ensures s.Valid()
    ensures s.users == old(s.users) && s.jobs == old(s.jobs)
  {
    r := s.CreateJob(caller, req, now);
    if r.Success? {
      assert s.jobs[r.value].status == PENDING && s.jobs[r.value].owner_id == caller;
      var d := s.DeleteJob(caller, r.value);
      assert s.jobs == old(s.jobs)[r.value := NewJob(r.value, caller, req, now)] - {r.value};
      assert s.users == old(s.users)[caller := old(s.users)[caller]];
    }
  }

  /**
   * Registration, for any non-admin name: the first registration succeeds
   * with the user grant of 120 and no admin rights, and registering the
   * same name again is refused.
   */
  method RegistrationWalkThrough(name: string) returns (first: Result<nat, ApiError>, second: Result<nat, ApiError>)
    requires name != ADMIN_USERNAME
    ensures first.Success? && second == Failure(DuplicateUsername)
  {
    var s := new GpuService();
    first := s.RegisterUser(name);
    assert !UsernameTaken(map[], name);
    assert s.users[first.value].quota == 120 && !s.users[first.value].is_admin;
    assert UsernameTaken(s.users, name) by {
      assert s.users[first.value].username == name;
    }
    second := s.RegisterUser(name);
  }

  /**
   * A fresh non-admin user asking for 200 seconds is refused with the
   * quota held and the quota required, and keeps all 120 seconds.
   */
  method FreshUserLongJobRefused(name: string, command: string) returns (r: Result<nat, ApiError>, quota: int)
    requires name != ADMIN_USERNAME && !IsUnsafeCommand(command)
    ensures r == Failure(InsufficientQuota(120, 200)) && quota == 120
  {
    var s := new GpuService();
    var reg := s.RegisterUser(name);
    assert !UsernameTaken(map[], name);
    var u := reg.value;
    assert s.users[u].quota == 120 && s.jobs == map[];
    assert ActiveJobs(s.jobs, u) == {};
    r := s.CreateJob(u, JobCreate("V100", 1, command, 200), 0);
    quota := s.users[u].quota;
  }

  /**
   * The ledger walk-through, for any non-admin name and any command that
   * passes the filter: a new user holds 120, a 20-second job leaves 100, a
   * 200-second job is refused with the quota untouched, and deleting the
   * first job (still PENDING) brings the quota back to 120.
   */
  method LedgerWalkThrough(name: string, command: string)
    requires name != ADMIN_USERNAME && !IsUnsafeCommand(command)
  {
    var s := new GpuService();
    var reg := s.RegisterUser(name);
    assert !UsernameTaken(map[], name);
    var alice := reg.value;
    assert s.users[alice].quota == 120 && s.jobs == map[];

    var first := s.CreateJob(alice, JobCreate("T4", 1, command, 20), 0);
    assert first.Success?;
    var id := first.value;
    assert s.users[alice].quota == 100;

    assert ActiveJobs(s.jobs, alice) == {id};
    var second := s.CreateJob(alice, JobCreate("V100", 1, command, 200), 1);
    assert second == Failure(InsufficientQuota(100, 200));
    assert s.users[alice].quota == 100;

    var deleted := s.DeleteJob(alice, id);
    assert deleted.Success?;
    assert s.users[alice].quota == 120;
  }

  /**
   * A negative duration admitted at submission comes back as a negative
   * refund: a new user submits -1000 seconds (quota 1120), spends all of it
   * on a second job (quota 0), then deletes the first job while it is still
   * PENDING, and the refund leaves the quota at -1000.
   */
  method NegativeRefundDrivesQuotaBelowZero(name: string, command: string) returns (quota: int)
    requires name != ADMIN_USERNAME && !IsUnsafeCommand(command)
    ensures quota == -1000
  {
    var s := new GpuService();
    var reg := s.RegisterUser(name);
    assert !UsernameTaken(map[], name);
    var u := reg.value;
    assert s.users[u].quota == 120 && s.jobs == map[];

    var first := s.CreateJob(u, JobCreate("T4", 1, command, -1000), 0);
    assert first.Success?;
    var id := first.value;
    assert s.users[u].quota == 1120;

    assert ActiveJobs(s.jobs, u) == {id};
    var second := s.CreateJob(u, JobCreate("T4", 1, command, 1120), 1);
    assert second.Success?;
    assert s.users[u].quota == 0;

    assert s.jobs[id].status == PENDING;
    var deleted := s.DeleteJob(u, id);
    quota := s.users[u].quota;
  }

  /** Approval: only the admin may set a job APPROVED, and no quota moves. */
  method ApprovalWalkThrough(name: string, command: string)
    requires name != ADMIN_USERNAME && !IsUnsafeCommand(command)
  {
    var s := new GpuService();
    var regAdmin := s.RegisterUser(ADMIN_USERNAME);
    assert !UsernameTaken(map[], ADMIN_USERNAME);
    var admin := regAdmin.value;
    assert !UsernameTaken(s.users, name) by {
      assert s.users.Keys == {admin};
    }
    var regUser := s.RegisterUser(name);
    var user := regUser.value;
    assert s.users[admin].is_admin && s.users[admin].quota == 1000;
    assert !s.users[user].is_admin && s.users[user].quota == 120;

    var job := s.CreateJob(user, JobCreate("T4", 1, command, 10), 0);
    assert job.Success?;
    var refused := s.UpdateJobStatus(user, job.value, APPROVED);
    assert refused == Failure(Forbidden);
    var approved := s.UpdateJobStatus(admin, job.value, APPROVED);
    assert approved.Success? && approved.value.status == APPROVED;
    assert s.users[user].quota == 110;
  }
}
