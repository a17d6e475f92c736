/**
 * The invariant of the two tables together, and its preservation by each
 * kind of write the handlers and the worker perform.
 */
module Store {
  import opened Jobs
  import opened Ledger
  import opened Conservation

  /** Every user row sits under its own id, below the next id to hand out. */
  ghost predicate UsersKeyed(users: map<nat, User>, nextUserId: nat) {
    forall u :: u in users ==> users[u].id == u && u < nextUserId
  }

  /** The username column is unique, as the registration check keeps it. */
  ghost predicate UniqueUsernames(users: map<nat, User>) {
    forall a, b :: DistinctNames(users, a, b)
  }

  ghost predicate DistinctNames(users: map<nat, User>, a: nat, b: nat) {
    a in users && b in users && a != b ==> users[a].username != users[b].username
  }

  /** Every job row sits under its own id, below the next id, and is owned by a registered user. */
  ghost predicate JobsKeyed(jobs: map<nat, Job>, nextJobId: nat, users: map<nat, User>) {
    forall k :: k in jobs ==> jobs[k].id == k && k < nextJobId && jobs[k].owner_id in users
  }

  ghost predicate Invariant(users: map<nat, User>, jobs: map<nat, Job>, nextUserId: nat, nextJobId: nat,
                            consumed: map<nat, int>) {
    && UsersKeyed(users, nextUserId)
    && UniqueUsernames(users)
    && JobsKeyed(jobs, nextJobId, users)
    && consumed.Keys == users.Keys
    && Conserved(users, jobs, consumed)
  }

  /** `users'` differs from `users` at most in quota columns. */
  ghost predicate SameAccounts(users: map<nat, User>, users': map<nat, User>) {
    && users'.Keys == users.Keys
    && forall u :: u in users ==> users'[u] == users[u].(quota := users'[u].quota)
  }

  lemma SameAccountsKeep(users: map<nat, User>, users': map<nat, User>, jobs: map<nat, Job>, nextUserId: nat, nextJobId: nat)
    requires SameAccounts(users, users')
    requires UsersKeyed(users, nextUserId) && UniqueUsernames(users) && JobsKeyed(jobs, nextJobId, users)
    ensures UsersKeyed(users', nextUserId) && UniqueUsernames(users') && JobsKeyed(jobs, nextJobId, users')
  {
    forall a, b ensures DistinctNames(users', a, b) {
      assert DistinctNames(users, a, b);
    }
  }

  /** Registering a fresh name under the next user id. */
  lemma RegisterPreserves(users: map<nat, User>, jobs: map<nat, Job>, nextUserId: nat, nextJobId: nat,
                          consumed: map<nat, int>, name: string)
    requires Invariant(users, jobs, nextUserId, nextJobId, consumed)
    requires !UsernameTaken(users, name)
    ensures Invariant(users[nextUserId := User(nextUserId, name, name == ADMIN_USERNAME, DefaultQuota(name))],
                      jobs, nextUserId + 1, nextJobId, consumed[nextUserId := 0])
  {
    var users' := users[nextUserId := User(nextUserId, name, name == ADMIN_USERNAME, DefaultQuota(name))];
    forall a, b ensures DistinctNames(users', a, b) {
      assert DistinctNames(users, a, b);
    }
    ConservedAfterRegister(users, jobs, consumed, nextUserId, name, users', consumed[nextUserId := 0]);
  }

  /** Debiting a registered caller and inserting their new job under the next job id. */
  lemma SubmitPreserves(users: map<nat, User>, jobs: map<nat, Job>, nextUserId: nat, nextJobId: nat,
                        consumed: map<nat, int>, j: Job)
    requires Invariant(users, jobs, nextUserId, nextJobId, consumed)
    requires j.owner_id in users && j.id == nextJobId
    ensures Invariant(users[j.owner_id := users[j.owner_id].(quota := users[j.owner_id].quota - j.estimated_duration)],
                      jobs[nextJobId := j], nextUserId, nextJobId + 1, consumed)
  {
    var users' := users[j.owner_id := users[j.owner_id].(quota := users[j.owner_id].quota - j.estimated_duration)];
    ConservedAfterSubmit(users, jobs, consumed, nextJobId, j, users', jobs[nextJobId := j]);
    SameAccountsKeep(users, users', jobs, nextUserId, nextJobId);
  }

  /** Rewriting a job row in place without touching its id, owner or duration. */
  lemma RewritePreserves(users: map<nat, User>, jobs: map<nat, Job>, nextUserId: nat, nextJobId: nat,
                         consumed: map<nat, int>, k: nat, j: Job)
    requires Invariant(users, jobs, nextUserId, nextJobId, consumed)
    requires k in jobs && j.id == k
    requires j.owner_id == jobs[k].owner_id && j.estimated_duration == jobs[k].estimated_duration
    ensures Invariant(users, jobs[k := j], nextUserId, nextJobId, consumed)
  {
    ConservedAfterRewrite(users, jobs, consumed, k, j, jobs[k := j]);
  }

  /** Deleting a job and crediting its duration to its owner. */
  lemma RefundPreserves(users: map<nat, User>, jobs: map<nat, Job>, nextUserId: nat, nextJobId: nat,
                        consumed: map<nat, int>, k: nat)
    requires Invariant(users, jobs, nextUserId, nextJobId, consumed)
    requires k in jobs
    ensures var o := jobs[k].owner_id;
            Invariant(users[o := users[o].(quota := users[o].quota + jobs[k].estimated_duration)],
                      jobs - {k}, nextUserId, nextJobId, consumed)
  {
    var o := jobs[k].owner_id;
    var users' := users[o := users[o].(quota := users[o].quota + jobs[k].estimated_duration)];
    ConservedAfterRefund(users, jobs, consumed, k, users');
    SameAccountsKeep(users, users', jobs, nextUserId, nextJobId);
  }

  /** Deleting a job without refund. */
  lemma ForfeitPreserves(users: map<nat, User>, jobs: map<nat, Job>, nextUserId: nat, nextJobId: nat,
                         consumed: map<nat, int>, k: nat)
    requires Invariant(users, jobs, nextUserId, nextJobId, consumed)
    requires k in jobs
    ensures var o := jobs[k].owner_id;
            Invariant(users, jobs - {k}, nextUserId, nextJobId, consumed[o := consumed[o] + jobs[k].estimated_duration])
  {
    var o := jobs[k].owner_id;
    ConservedAfterForfeit(users, jobs, consumed, k, consumed[o := consumed[o] + jobs[k].estimated_duration]);
  }
}
