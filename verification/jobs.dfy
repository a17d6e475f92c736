/**
 * The records of the GPU service and the pure admission rules that
 * `create_job` applies before it touches the store (main.py).
 */
module Jobs {
  import opened Wrappers

  /** A row of the user table: `{id, username, is_admin, quota}`. */
  datatype User = User(id: nat, username: string, is_admin: bool, quota: int)

  /**
   * A row of the job table. Timestamps are clock readings supplied by the
   * caller; `None` is a NULL column.
   */
  datatype Job = Job(
    id: nat,
    owner_id: nat,
    gpu_type: string,
    gpu_count: int,
    command: string,
    estimated_duration: int,
    status: string,
    created_at: int,
    started_at: Option<int>,
    completed_at: Option<int>)

  /** The body of a job submission. */
  datatype JobCreate = JobCreate(gpu_type: string, gpu_count: int, command: string, estimated_duration: int)

  /** The errors the handlers raise, one per rejection in main.py. */
  datatype ApiError =
    | DuplicateUsername
    | TooFewGpus
    | TooManyGpus
    | UnsafeCommand
    | TooManyActiveJobs
    | InsufficientQuota(quota: int, required: int)
    | Forbidden
    | NotFound

  // The status column holds free text; these are the values the code writes and tests.
  const PENDING: string := "PENDING"
  const APPROVED: string := "APPROVED"
  const RUNNING: string := "RUNNING"
  const COMPLETED: string := "COMPLETED"
  const FAILED: string := "FAILED"

  /** Policy constants of `create_job` and `register_user`. */
  const MAX_GPU_COUNT: int := 10
  const MAX_ACTIVE_JOBS: int := 2
  const ADMIN_USERNAME: string := "admin"
  const ADMIN_QUOTA: int := 1000
  const USER_QUOTA: int := 120

  /** The substrings that mark a command as a shell-injection attempt. */
  const DANGEROUS: seq<string> := [";", "&&", "|", "`", "$("]

  /** The quota granted at registration: the username "admin" gets the admin grant. */
  function DefaultQuota(username: string): int {
    if username == ADMIN_USERNAME then ADMIN_QUOTA else USER_QUOTA
  }

  /** Some registered user already has this username. */
  predicate UsernameTaken(users: map<nat, User>, username: string) {
    exists k :: k in users && users[k].username == username
  }

  /** The row `create_job` inserts: the request's fields, the caller as owner, status PENDING. */
  function NewJob(id: nat, owner: nat, req: JobCreate, now: int): Job {
    Job(id, owner, req.gpu_type, req.gpu_count, req.command, req.estimated_duration, PENDING, now, None, None)
  }

  /** `pat` occurs in `s` starting at index `i`. */
  predicate OccursAt(pat: string, s: string, i: int) {
    0 <= i && i + |pat| <= |s| && s[i..i + |pat|] == pat
  }

  /** Python's `pat in s` on strings. */
  function IsSubstring(pat: string, s: string): (r: bool)
    ensures r <==> exists i :: OccursAt(pat, s, i)
    decreases |s|
  {
    if |pat| > |s| then false
    else if s[..|pat|] == pat then assert OccursAt(pat, s, 0); true
    else
      var rest := IsSubstring(pat, s[1..]);
      assert forall i :: 1 <= i ==> (OccursAt(pat, s, i) <==> OccursAt(pat, s[1..], i - 1));
      assert rest ==> exists i :: OccursAt(pat, s, i) by {
        if rest {
          var j :| OccursAt(pat, s[1..], j);
          assert OccursAt(pat, s, j + 1);
        }
      }
      rest
  }

  /** `any(p in s for p in pats)`. */
  function AnyIn(pats: seq<string>, s: string): (r: bool)
    ensures r <==> exists k :: 0 <= k < |pats| && IsSubstring(pats[k], s)
  {
    if pats == [] then false
    else
      var rest := AnyIn(pats[1..], s);
      assert forall k :: 1 <= k < |pats| ==> pats[k] == pats[1..][k - 1];
      IsSubstring(pats[0], s) || rest
  }

  /** The command safety filter of `create_job`. */
  predicate IsUnsafeCommand(command: string) {
    AnyIn(DANGEROUS, command)
  }

  predicate IsActive(j: Job) {
    j.status == PENDING || j.status == RUNNING
  }

  /** The ids of the owner's jobs that count against the concurrency cap. */
  function ActiveJobs(jobs: map<nat, Job>, owner: nat): set<nat> {
    set k | k in jobs && jobs[k].owner_id == owner && IsActive(jobs[k])
  }

  /**
   * The admission decision of `create_job` for a caller whose current row
   * is `caller`: the first failing check in source order, or `None` when
   * every check passes.
   */
  function CheckAdmission(caller: User, jobs: map<nat, Job>, req: JobCreate): (r: Option<ApiError>)
    ensures r == Some(TooFewGpus) <==> req.gpu_count <= 0
    ensures r == Some(TooManyGpus) <==> req.gpu_count > MAX_GPU_COUNT
    ensures r == Some(UnsafeCommand) <==>
              1 <= req.gpu_count <= MAX_GPU_COUNT && IsUnsafeCommand(req.command)
    ensures r == Some(TooManyActiveJobs) <==>
              1 <= req.gpu_count <= MAX_GPU_COUNT && !IsUnsafeCommand(req.command)
              && |ActiveJobs(jobs, caller.id)| >= MAX_ACTIVE_JOBS
    ensures (r.Some? && r.value.InsufficientQuota?) <==>
              1 <= req.gpu_count <= MAX_GPU_COUNT && !IsUnsafeCommand(req.command)
              && |ActiveJobs(jobs, caller.id)| < MAX_ACTIVE_JOBS && caller.quota < req.estimated_duration
    ensures r.Some? && r.value.InsufficientQuota? ==>
              r.value == InsufficientQuota(caller.quota, req.estimated_duration)
    ensures r == None <==>
              1 <= req.gpu_count <= MAX_GPU_COUNT && !IsUnsafeCommand(req.command)
              && |ActiveJobs(jobs, caller.id)| < MAX_ACTIVE_JOBS && req.estimated_duration <= caller.quota
  {
    if req.gpu_count <= 0 then Some(TooFewGpus)
    else if req.gpu_count > MAX_GPU_COUNT then Some(TooManyGpus)
    else if IsUnsafeCommand(req.command) then Some(UnsafeCommand)
    else if |ActiveJobs(jobs, caller.id)| >= MAX_ACTIVE_JOBS then Some(TooManyActiveJobs)
    else if caller.quota < req.estimated_duration then Some(InsufficientQuota(caller.quota, req.estimated_duration))
    else None
  }
}

module AdmissionFacts {
  import opened Wrappers
  import opened Jobs

  /** An out-of-range GPU count is rejected identically whatever the caller's quota or jobs. */
  lemma GpuCountRejectedWhateverState(a: User, jobsA: map<nat, Job>, b: User, jobsB: map<nat, Job>, req: JobCreate)
    requires req.gpu_count <= 0 || req.gpu_count > MAX_GPU_COUNT
    ensures CheckAdmission(a, jobsA, req) == CheckAdmission(b, jobsB, req)
    ensures CheckAdmission(a, jobsA, req) in {Some(TooFewGpus), Some(TooManyGpus)}
  {
  }

  /** Any occurrence of a denylisted sequence in a command with a valid GPU count is an `UnsafeCommand`. */
  lemma DangerousSubstringRejected(caller: User, jobs: map<nat, Job>, req: JobCreate, k: nat, i: int)
    requires 1 <= req.gpu_count <= MAX_GPU_COUNT
    requires k < |DANGEROUS| && OccursAt(DANGEROUS[k], req.command, i)
    ensures CheckAdmission(caller, jobs, req) == Some(UnsafeCommand)
  {
    assert IsSubstring(DANGEROUS[k], req.command);
  }

  /** A pattern whose first character is absent from `s` does not occur in it. */
  lemma FirstCharAbsent(pat: string, s: string)
    requires |pat| > 0 && pat[0] !in s
    ensures !IsSubstring(pat, s)
  {
  }

  /** A command without any of the characters `;`, `&`, `|`, backtick or `$` passes the filter. */
  lemma SafeAlphabetPasses(command: string)
    requires ';' !in command && '&' !in command && '|' !in command
    requires '`' !in command && '$' !in command
    ensures !IsUnsafeCommand(command)
  {
    forall k | 0 <= k < |DANGEROUS| ensures !IsSubstring(DANGEROUS[k], command) {
      FirstCharAbsent(DANGEROUS[k], command);
    }
  }

  /** The command of the service's own submission test passes the filter. */
  lemma TestCommandPasses()
    ensures !IsUnsafeCommand("python main.py")
  {
    SafeAlphabetPasses("python main.py");
  }

  /** A `;` command separator is caught. */
  lemma SeparatorRejected()
    ensures IsUnsafeCommand("ls; rm -rf /")
  {
    assert OccursAt(DANGEROUS[0], "ls; rm -rf /", 2);
  }

  /** A `$(` command substitution is caught. */
  lemma SubstitutionRejected()
    ensures IsUnsafeCommand("echo $(id)")
  {
    assert OccursAt(DANGEROUS[4], "echo $(id)", 5);
  }

  /** Jobs outside PENDING and RUNNING (APPROVED among them) never count against the cap. */
  lemma InactiveJobNotCounted(jobs: map<nat, Job>, owner: nat, k: nat, j: Job)
    requires k !in jobs && !IsActive(j)
    ensures ActiveJobs(jobs[k := j], owner) == ActiveJobs(jobs, owner)
  {
  }

  /** Two active jobs of one's own block any further submission, whatever the quota. */
  lemma CapBlocksWhateverQuota(caller: User, jobs: map<nat, Job>, req: JobCreate, a: nat, b: nat)
    requires 1 <= req.gpu_count <= MAX_GPU_COUNT && !IsUnsafeCommand(req.command)
    requires a != b && a in jobs && b in jobs
    requires jobs[a].owner_id == caller.id && IsActive(jobs[a])
    requires jobs[b].owner_id == caller.id && IsActive(jobs[b])
    ensures CheckAdmission(caller, jobs, req) == Some(TooManyActiveJobs)
  {
    assert {a, b} <= ActiveJobs(jobs, caller.id);
    assert |{a, b}| == 2;
    SubsetCard({a, b}, ActiveJobs(jobs, caller.id));
  }

  /**
   * No check bounds the duration from below: a negative duration passes
   * the quota check even at quota 0, and the debit then raises the quota.
   */
  lemma NegativeDurationAdmitted(caller: User, jobs: map<nat, Job>, req: JobCreate)
    requires caller.quota == 0 && jobs == map[]
    requires req == JobCreate("T4", 1, "run", -1000)
    ensures CheckAdmission(caller, jobs, req) == None
    ensures caller.quota - req.estimated_duration == 1000
  {
    assert !IsUnsafeCommand("run") by { SafeAlphabetPasses("run"); }
  }

  lemma SubsetCard<T>(a: set<T>, b: set<T>)
    requires a <= b
    ensures |a| <= |b|
  {
    assert b == a + (b - a);
  }
}
