/**
 * Quantities over the job table: the quota held by an owner's jobs, the
 * number of jobs in each status, and the oldest APPROVED job.
 */
module Ledger {
  import opened Jobs

  /** What one job holds against `owner`'s quota. */
  function Charge(j: Job, owner: nat): int {
    if j.owner_id == owner then j.estimated_duration else 0
  }

  /** The quota debited for `owner`'s jobs still in the table, whatever their status. */
  ghost function Held(jobs: map<nat, Job>, owner: nat): int
    decreases |jobs.Keys|
  {
    if jobs == map[] then 0
    else
      var k :| k in jobs;
      assert (jobs - {k}).Keys == jobs.Keys - {k};
      Charge(jobs[k], owner) + Held(jobs - {k}, owner)
  }

  /** Splitting one row out of the sum. */
  lemma {:induction false} HeldRemove(jobs: map<nat, Job>, k: nat, owner: nat)
    requires k in jobs
    ensures Held(jobs, owner) == Charge(jobs[k], owner) + Held(jobs - {k}, owner)
    decreases |jobs.Keys|
  {
    var k' :| k' in jobs && Held(jobs, owner) == Charge(jobs[k'], owner) + Held(jobs - {k'}, owner);
    if k' != k {
      assert (jobs - {k'}).Keys == jobs.Keys - {k'};
      assert (jobs - {k}).Keys == jobs.Keys - {k};
      HeldRemove(jobs - {k'}, k, owner);
      HeldRemove(jobs - {k}, k', owner);
      assert jobs - {k'} - {k} == jobs - {k} - {k'};
    }
  }

  /** Inserting a row under a fresh id adds exactly its charge. */
  lemma HeldInsert(jobs: map<nat, Job>, k: nat, j: Job, owner: nat)
    requires k !in jobs
    ensures Held(jobs[k := j], owner) == Held(jobs, owner) + Charge(j, owner)
  {
    HeldRemove(jobs[k := j], k, owner);
    assert jobs[k := j] - {k} == jobs;
  }

  /** Rewriting a row that keeps its owner and duration leaves every owner's sum alone. */
  lemma HeldReplace(jobs: map<nat, Job>, k: nat, j: Job, owner: nat)
    requires k in jobs
    requires j.owner_id == jobs[k].owner_id && j.estimated_duration == jobs[k].estimated_duration
    ensures Held(jobs[k := j], owner) == Held(jobs, owner)
  {
    HeldRemove(jobs[k := j], k, owner);
    HeldRemove(jobs, k, owner);
    assert jobs[k := j] - {k} == jobs - {k};
  }

  /** The ids of the jobs whose status is `status`. */
  function WithStatus(jobs: map<nat, Job>, status: string): set<nat> {
    set k | k in jobs && jobs[k].status == status
  }

  function CountStatus(jobs: map<nat, Job>, status: string): nat {
    |WithStatus(jobs, status)|
  }

  /** Moving one job from `from` to `to` shifts exactly one unit between the two counts. */
  lemma CountsAfterMove(jobs: map<nat, Job>, k: nat, j: Job, from: string, to: string, other: string)
    requires k in jobs && jobs[k].status == from && j.status == to && from != to
    ensures CountStatus(jobs[k := j], from) == CountStatus(jobs, from) - 1
    ensures CountStatus(jobs[k := j], to) == CountStatus(jobs, to) + 1
    ensures other != from && other != to ==> CountStatus(jobs[k := j], other) == CountStatus(jobs, other)
  {
    assert WithStatus(jobs[k := j], from) == WithStatus(jobs, from) - {k};
    assert WithStatus(jobs[k := j], to) == WithStatus(jobs, to) + {k};
    if other != from && other != to {
      assert WithStatus(jobs[k := j], other) == WithStatus(jobs, other);
    }
  }

  /** `id` is the APPROVED job with the smallest id, the one the worker takes. */
  predicate IsOldestApproved(jobs: map<nat, Job>, id: nat) {
    id in WithStatus(jobs, APPROVED) && forall k :: k in WithStatus(jobs, APPROVED) ==> id <= k
  }

  /** `m` is the least element of `s`. */
  ghost predicate IsLeast(s: set<nat>, m: nat) {
    m in s && forall x :: x in s ==> m <= x
  }

  lemma {:induction false} LeastExists(s: set<nat>)
    requires s != {}
    ensures exists m :: IsLeast(s, m)
    decreases |s|
  {
    var x :| x in s;
    var rest := s - {x};
    if rest == {} {
      assert s == {x};
      assert IsLeast(s, x);
    } else {
      LeastExists(rest);
      var m :| IsLeast(rest, m);
      var least := if x < m then x else m;
      forall y | y in s ensures least <= y {
        if y != x { assert y in rest; }
      }
      assert IsLeast(s, least);
    }
  }

  /** Whenever some job is APPROVED there is exactly one oldest APPROVED job. */
  lemma OldestApprovedUnique(jobs: map<nat, Job>)
    requires WithStatus(jobs, APPROVED) != {}
    ensures exists id :: IsOldestApproved(jobs, id)
    ensures forall a, b :: IsOldestApproved(jobs, a) && IsOldestApproved(jobs, b) ==> a == b
  {
    LeastExists(WithStatus(jobs, APPROVED));
    var m :| IsLeast(WithStatus(jobs, APPROVED), m);
    assert IsOldestApproved(jobs, m);
  }
}

/**
 * The quota ledger's conservation law: for every registered user, the
 * remaining quota, plus what their jobs in the table hold, plus what their
 * jobs deleted without refund had held, is the quota granted at registration.
 */
module Conservation {
  import opened Jobs
  import opened Ledger

  ghost predicate Conserved(users: map<nat, User>, jobs: map<nat, Job>, consumed: map<nat, int>) {
    forall u :: BalancedFor(users, jobs, consumed, u)
  }

  /** The conservation law for one user. */
  ghost predicate BalancedFor(users: map<nat, User>, jobs: map<nat, Job>, consumed: map<nat, int>, u: nat) {
    u in users && u in consumed ==>
      users[u].quota + Held(jobs, u) + consumed[u] == DefaultQuota(users[u].username)
  }

  /** A user without rows in the table holds nothing. */
  lemma {:induction false} HeldUnowned(jobs: map<nat, Job>, owner: nat)
    requires forall k :: k in jobs ==> jobs[k].owner_id != owner
    ensures Held(jobs, owner) == 0
    decreases |jobs.Keys|
  {
    if jobs != map[] {
      var k :| k in jobs;
      HeldRemove(jobs, k, owner);
      assert (jobs - {k}).Keys == jobs.Keys - {k};
      HeldUnowned(jobs - {k}, owner);
    }
  }

  /** Registering a fresh user with the default grant and nothing consumed keeps the law. */
  lemma ConservedAfterRegister(users: map<nat, User>, jobs: map<nat, Job>, consumed: map<nat, int>,
                               id: nat, name: string, users': map<nat, User>, consumed': map<nat, int>)
    requires Conserved(users, jobs, consumed)
    requires forall k :: k in jobs ==> jobs[k].owner_id != id
    requires users' == users[id := User(id, name, name == ADMIN_USERNAME, DefaultQuota(name))]
    requires consumed' == consumed[id := 0]
    ensures Conserved(users', jobs, consumed')
  {
    HeldUnowned(jobs, id);
    forall u ensures BalancedFor(users', jobs, consumed', u) {
      assert BalancedFor(users, jobs, consumed, u);
    }
  }

  /** Debiting the caller by the duration of the job inserted for them keeps the law. */
  lemma ConservedAfterSubmit(users: map<nat, User>, jobs: map<nat, Job>, consumed: map<nat, int>,
                             id: nat, j: Job, users': map<nat, User>, jobs': map<nat, Job>)
    requires Conserved(users, jobs, consumed)
    requires id !in jobs && j.owner_id in users
    requires users' == users[j.owner_id := users[j.owner_id].(quota := users[j.owner_id].quota - j.estimated_duration)]
    requires jobs' == jobs[id := j]
    ensures Conserved(users', jobs', consumed)
  {
    forall u ensures BalancedFor(users', jobs', consumed, u) {
      assert BalancedFor(users, jobs, consumed, u);
      HeldInsert(jobs, id, j, u);
    }
  }

  /** Rewriting a job's status (or timestamps) moves no quota. */
  lemma ConservedAfterRewrite(users: map<nat, User>, jobs: map<nat, Job>, consumed: map<nat, int>,
                              id: nat, j: Job, jobs': map<nat, Job>)
    requires Conserved(users, jobs, consumed)
    requires id in jobs
    requires j.owner_id == jobs[id].owner_id && j.estimated_duration == jobs[id].estimated_duration
    requires jobs' == jobs[id := j]
    ensures Conserved(users, jobs', consumed)
  {
    forall u ensures BalancedFor(users, jobs', consumed, u) {
      assert BalancedFor(users, jobs, consumed, u);
      HeldReplace(jobs, id, j, u);
    }
  }

  /** Deleting a job and crediting its duration back to its owner keeps the law. */
  lemma ConservedAfterRefund(users: map<nat, User>, jobs: map<nat, Job>, consumed: map<nat, int>,
                             id: nat, users': map<nat, User>)
    requires Conserved(users, jobs, consumed)
    requires id in jobs && jobs[id].owner_id in users
    requires var o := jobs[id].owner_id;
             users' == users[o := users[o].(quota := users[o].quota + jobs[id].estimated_duration)]
    ensures Conserved(users', jobs - {id}, consumed)
  {
    forall u ensures BalancedFor(users', jobs - {id}, consumed, u) {
      assert BalancedFor(users, jobs, consumed, u);
      HeldRemove(jobs, id, u);
    }
  }

  /** Deleting a job without refund moves its duration to the owner's consumed total. */
  lemma ConservedAfterForfeit(users: map<nat, User>, jobs: map<nat, Job>, consumed: map<nat, int>,
                              id: nat, consumed': map<nat, int>)
    requires Conserved(users, jobs, consumed)
    requires id in jobs && jobs[id].owner_id in consumed
    requires var o := jobs[id].owner_id;
             consumed' == consumed[o := consumed[o] + jobs[id].estimated_duration]
    ensures Conserved(users, jobs - {id}, consumed')
  {
    forall u ensures BalancedFor(users, jobs - {id}, consumed', u) {
      assert BalancedFor(users, jobs, consumed, u);
      HeldRemove(jobs, id, u);
    }
  }
}
