# GPU-time service: job lifecycle and quota ledger

A Dafny model of the core of a small GPU-time service. Users register and get a quota of compute seconds. They submit jobs that an admin approves, and a background worker runs the approved jobs. The model covers the request handlers of `main.py` and the worker loop of `worker.py`. Both act on two tables: users `{id, username, is_admin, quota}` and jobs `{id, owner_id, gpu_type, gpu_count, command, estimated_duration, status, created_at, started_at, completed_at}`.

- `wrappers.dfy`: `Option` and `Result`.
- `jobs.dfy`, module `Jobs`: the rows, the error kinds, the policy constants (at most 10 GPUs, at most 2 active jobs, grants of 1000 and 120) and the pure admission rules of `create_job`. The rules are the GPU bounds, the substring denylist `;`, `&&`, `|`, backtick, `$(`, the active-job count and the quota check, taken in source order. Module `AdmissionFacts` proves properties of these rules.
- `ledger.dfy`: module `Ledger` defines, over the job table, the quota that an owner's jobs hold, the count of jobs in each status, and the oldest APPROVED job. Module `Conservation` states the ledger's conservation law and proves that each kind of write keeps it.
- `store.dfy`, module `Store`: the invariant of both tables together, and one preservation lemma per kind of write.
- `service.dfy`, module `Service`: class `GpuService`. Its `users` and `jobs` map fields are the two tables, and each handler is one method that rewrites them. The handlers are `register_user`, `charge_quota`, `create_job`, `read_jobs`, `update_job_status` and `delete_job`.
- `worker.dfy`, module `Worker`: one iteration of `process_jobs`, the counted execution loop, and the worker loop cut to a finite number of iterations.
- `scenarios.dfy`, module `Scenarios`: client code proved from the handlers' contracts alone. It covers submit-then-delete, the negative refund, and these tests: successful and duplicate registration (tests/test_auth.py:13-48), submission, insufficient quota and admin approval (tests/test_jobs.py:9-90).

The conservation law is part of the class invariant `GpuService.Valid()`, so every handler and every worker commit keeps it. It reads: for each user, `quota` + the durations of their jobs still in the table + the durations of their jobs deleted while not PENDING = the grant at registration (1000 for `"admin"`, 120 for everyone else). The last term is a ghost per-user total. Every handler's contract states exactly how that total changes. Only a delete outside PENDING adds to it, and a new user starts at 0. A caller can therefore rely on the law across any sequence of calls.

The model follows the code as written, including where its comments suggest otherwise:
- `update_job_status` overwrites the status with any string, from any prior status. There is no terminal-state guard.
- The worker claims a job with a plain read and then a write. There is no compare-and-set.
- The worker's query has no `order_by`, although its comment (worker.py:34) calls it FIFO. The model takes the APPROVED job with the smallest id, which is also the oldest one still in the table: `CreateJob` ensures that a new id exceeds every id already in the table.
- Status is free text, as in the code. `PENDING`, `APPROVED`, `RUNNING`, `COMPLETED` and `FAILED` are constants.
- `app/models.py` declares `role`/`quota_limit` and no `started_at`/`completed_at`. The model uses the fields that `main.py` and `app/schemas.py` use.
- `estimated_duration` is never checked for sign. A negative duration passes the quota check and raises the quota (`AdmissionFacts.NegativeDurationAdmitted`). Deleting such a job while PENDING refunds the negative amount, so the quota can fall below 0 (`Scenarios.NegativeRefundDrivesQuotaBelowZero`: -1000 after a submit of -1000, a submit of 1120 and the delete). The model keeps this behaviour.

## Model

| member | source | states |
|---|---|---|
| `Jobs.IsSubstring` | main.py:197 | Python's `pat in s`: true exactly when `pat` occurs at some index of `s` (the empty pattern always occurs) |
| `Jobs.AnyIn` | main.py:196-197 | `any(...)` over the denylist: true exactly when some listed pattern occurs in the command |
| `Jobs.CheckAdmission` | main.py:188-217 | the checks run in order and the first failure wins: too few GPUs iff `gpu_count <= 0`; too many iff `> 10`; unsafe iff the count is valid and a denylisted sequence occurs; cap iff also 2 or more own PENDING/RUNNING jobs; insufficient quota (carrying quota and need) iff also `quota < estimated_duration`; admitted iff all pass |
| `AdmissionFacts.GpuCountRejectedWhateverState` | main.py:189-193 | an out-of-range GPU count gets the same rejection whatever the caller's quota and jobs |
| `AdmissionFacts.DangerousSubstringRejected` | main.py:196-198 | any occurrence of a denylisted sequence anywhere in the command rejects it as unsafe, once the GPU count is valid |
| `AdmissionFacts.SafeAlphabetPasses` | main.py:196-197 | a command with none of the characters `;`, `&`, `|`, backtick or `$` passes the filter |
| `AdmissionFacts.TestCommandPasses` | tests/test_jobs.py:22-35 | the command `python main.py` from the submission test passes the filter |
| `AdmissionFacts.SeparatorRejected` | main.py:196-198 | `ls; rm -rf /` is caught by the `;` entry |
| `AdmissionFacts.SubstitutionRejected` | main.py:196-198 | `echo $(id)` is caught by the `$(` entry |
| `AdmissionFacts.InactiveJobNotCounted` | main.py:201-204 | a job outside PENDING/RUNNING (for example APPROVED) does not change the active-job set |
| `AdmissionFacts.CapBlocksWhateverQuota` | main.py:200-207 | two distinct own PENDING/RUNNING jobs force `TooManyActiveJobs`, whatever the quota |
| `AdmissionFacts.NegativeDurationAdmitted` | main.py:212-220 | at quota 0 a request with duration -1000 is admitted, and the debit leaves quota 1000 |
| `Ledger.HeldInsert` | main.py:220-223 | inserting a job under a fresh id raises the held sum of its owner by its duration and no other owner's |
| `Ledger.HeldReplace` | main.py:265 | rewriting a job row that keeps owner and duration leaves every owner's held sum unchanged |
| `Ledger.HeldRemove` | main.py:293-299 | removing a job takes exactly its duration out of its owner's held sum and nothing out of anyone else's |
| `Ledger.CountsAfterMove` | worker.py:41-57 | moving one job from one status to another lowers the first count by one, raises the second by one, and leaves every other status count unchanged |
| `Ledger.OldestApprovedUnique` | worker.py:34-35 | whenever some job is APPROVED there is an APPROVED job with the least id, and only one |
| `Conservation.ConservedAfterRegister` | main.py:131-141 | a fresh user with the default grant and nothing consumed keeps the conservation law |
| `Conservation.ConservedAfterSubmit` | main.py:219-225 | debiting the caller by the duration of the job inserted for them keeps the law |
| `Conservation.ConservedAfterRewrite` | main.py:261-266 | changing a job's status or timestamps moves no quota and keeps the law |
| `Conservation.ConservedAfterRefund` | main.py:293-300 | crediting the owner of a deleted PENDING job with its duration keeps the law |
| `Conservation.ConservedAfterForfeit` | main.py:293-300 | deleting a non-PENDING job without refund keeps the law, with its duration counted as consumed |
| `Store.RegisterPreserves` | main.py:122-143 | registration under the next id keeps the table invariant: rows under their ids, usernames unique, job owners registered, conservation |
| `Store.SubmitPreserves` | main.py:219-226 | the debit plus the insert keeps the table invariant |
| `Store.RewritePreserves` | main.py:261-266 | an in-place rewrite of a job row keeps the table invariant |
| `Store.RefundPreserves` | main.py:291-300 | a delete with refund to the owner keeps the table invariant |
| `Store.ForfeitPreserves` | main.py:299-300 | a delete without refund keeps the table invariant |
| `Service.GpuService.RegisterUser` | main.py:109-143 | a taken username is refused and nothing changes; otherwise exactly one user is added under a fresh id, `is_admin` iff the name is `admin`, quota 1000 for `admin` and 120 otherwise, with nothing consumed yet; jobs untouched |
| `Service.GpuService.ChargeQuota` | main.py:150-165 | returns the caller's current quota and changes nothing |
| `Service.GpuService.CreateJob` | main.py:171-228 | a rejection returns the first failing check and leaves both tables unchanged; an admission adds exactly one PENDING job owned by the caller under an id larger than every existing one, lowers only the caller's quota by exactly `estimated_duration`, leaves that quota non-negative, and leaves the consumed totals unchanged, so the conservation law holds with the debit sitting in the new job |
| `Service.GpuService.ReadJobs` | main.py:230-245 | an admin gets the whole job table; anyone else gets exactly the rows they own, unchanged |
| `Service.GpuService.UpdateJobStatus` | main.py:247-268 | a non-admin is refused; a missing id is refused; otherwise only that job's status becomes the given text, from any prior status; no user changes |
| `Service.GpuService.DeleteJob` | main.py:270-300 | a missing id is refused; a caller who is neither admin nor owner is refused; both refusals change nothing; otherwise the job is removed and the owner (not the caller) gets exactly `estimated_duration` back iff it was PENDING; otherwise that duration moves to the owner's consumed total; no other row changes |
| `Service.GpuService.SaveJob` | worker.py:41-57 | one committed rewrite of a job row: only that row changes, no user changes, and the row is appended to the commit log |
| `Worker.Execute` | worker.py:48-51 | the simulated run takes `estimated_duration` steps, 10 when the duration is 0, none when it is negative |
| `Worker.ProcessOnce` | worker.py:30-68 | one `Step` of the job table, and exactly the committed rows appended to the store's commit log. With nothing APPROVED the iteration is idle and changes nothing; otherwise it takes the APPROVED job with the least id. Without a fault it commits the row as RUNNING with `started_at`, then as COMPLETED with `completed_at`, and only that row changes. A failing first commit changes nothing; a failing second commit leaves the job RUNNING. Users and consumed totals are never touched. APPROVED drops by one and COMPLETED rises by one per finished job |
| `Worker.StepCounts` | worker.py:41-57 | one iteration keeps every job row; APPROVED falls by one iff it claimed a job, and COMPLETED rises by one iff it finished |
| `Worker.AbandonedClaimRetried` | worker.py:34-68 | after a failed claim commit the job is still APPROVED and the oldest one, so the next iteration takes the same job again |
| `Worker.StuckJobNotRetried` | worker.py:41-68 | after a failed finish commit the job stays RUNNING; the next iteration neither takes it again nor changes its row |
| `Worker.RunWorker` | worker.py:30-68 | one log entry per iteration. The ghost sequence of job tables starts at the initial table and ends at the final one. Iteration `i` is one `Step` from table `i` to table `i + 1` under its own clock and fault, so an exception in one iteration does not stop the next. Users and consumed totals never change, and no job row appears or disappears. APPROVED falls by the number of claims and COMPLETED rises by the number of finished jobs |
| `Scenarios.SubmitThenDelete` | main.py:219-299 | submitting and then deleting the still-PENDING job leaves both tables exactly as before |
| `Scenarios.NegativeRefundDrivesQuotaBelowZero` | main.py:213-296 | for a new non-admin user: a -1000 submission, a 1120 submission and the delete of the first job leave the quota at -1000 |
| `Scenarios.RegistrationWalkThrough` | tests/test_auth.py:13-48 | for any non-admin name the first registration succeeds and the second is refused as a duplicate |
| `Scenarios.FreshUserLongJobRefused` | tests/test_jobs.py:42-61 | a fresh non-admin user's 200-second request is refused as `InsufficientQuota(120, 200)`, and the quota stays 120 |

Two walk-throughs have no row, because they have no contract: every step is an assertion in the body. Both hold for any non-admin name and any command that passes the filter.
- `Scenarios.LedgerWalkThrough` extends the submission test (tests/test_jobs.py:12-40). The quota goes from 120 to 100 after a 20-second job. A 200-second job is then refused as `InsufficientQuota(100, 200)`. Deleting the first job while it is still PENDING restores 120.
- `Scenarios.ApprovalWalkThrough` replays the approval test (tests/test_jobs.py:63-90), in which an admin sets a job APPROVED. It adds that the same update by a non-admin is refused, and that no quota moves.

## Left out

- HTTP routing, status codes, response schemas, page templates, static files and CORS. Errors are the `ApiError` datatype.
- Password hashing, JWT issue and decode, `login_for_access_token` and `read_users_me`. The handlers receive the caller's user id. They require it to be a registered user, because `get_current_user` (app/security.py:72-97) refuses the request with 401 before any handler runs otherwise.
- SQLAlchemy engines and sessions. The tables are in-memory maps. Ids come from counters that never reuse a value, whereas SQLite's rowid may reuse the largest id after a delete.
- Concurrency between request handlers and the worker, and between concurrent submissions. Every handler and every worker commit is one atomic step. The code has no locking or compare-and-set, so the model claims no race freedom.
- `time.sleep`, `datetime.now()`/`utcnow()` and the 2-second idle back-off. Clock readings are parameters, and the run is a counted loop.
- Console output and the worker's error log.
- `Worker.RunWorker`: models the endless `while True` loop only up to the number of iterations its input provides. A store failure at the query itself is not a separate case, because it changes nothing, just like a failing first commit.
- `Worker.ProcessOnce`: `.first()` without an ordering is modelled as the smallest id. The database may return any APPROVED row.
- `Service.GpuService.CreateJob`: quotas and durations are unbounded integers. The columns are SQLite INTEGER (signed 64-bit). A value outside that range makes the commit at main.py:225 raise, and the request fails with no change. The model instead admits the job and stores the out-of-range quota, for example a duration of -2^63 at quota 120. `DeleteJob`'s refund at main.py:296 has the same gap.
- A NULL `estimated_duration` (the `or 10` case for None): rows created through `create_job` always carry an integer.
- The root-level `schemas.py`, `security.py` and `database.py`, which `main.py` does not import; `make_admin.py` (a raw SQL update) and `test_login.py` (a network client).
