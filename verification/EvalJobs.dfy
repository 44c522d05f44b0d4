/** Evaluation jobs started through the API (eval/auto_eval.py): the rows of `eval_runs` that
    `create_eval_job` makes, and each function on its own. */
module EvalJobs {
  import opened Options

  type Time = int
  type RunId = string
  type TenantId = string

  datatype Status = Queued | Running | Completed | Failed

  datatype EvalRun = EvalRun(tenant: TenantId, status: Status, createdAt: Time)

  type Table = map<RunId, EvalRun>

  predicate Active(run: EvalRun) {
    run.status == Queued || run.status == Running
  }

  predicate ActiveIn(rows: Table, tenant: TenantId, id: RunId) {
    id in rows && rows[id].tenant == tenant && Active(rows[id])
  }

  function StaleIds(rows: Table, tenant: TenantId, cutoff: Time): set<RunId> {
    set id | id in rows && ActiveIn(rows, tenant, id) && rows[id].createdAt < cutoff
  }

  /** The UPDATE that fails the stale runs. */
  function FailAll(rows: Table, ids: set<RunId>): Table {
    map id | id in rows :: if id in ids then rows[id].(status := Failed) else rows[id]
  }

  /** What `ORDER BY created_at DESC LIMIT 1` over a tenant's active runs may return. */
  ghost predicate IsNewestActive(rows: Table, tenant: TenantId, found: Option<RunId>) {
    match found
    case None => forall id :: id in rows ==> !ActiveIn(rows, tenant, id)
    case Some(newest) =>
      && ActiveIn(rows, tenant, newest)
      && forall id :: ActiveIn(rows, tenant, id) ==> rows[id].createdAt <= rows[newest].createdAt
  }

  predicate Matches(rows: Table, id: RunId, tenant: TenantId) {
    id in rows && rows[id].tenant == tenant
  }

  predicate Claimable(rows: Table, id: RunId, tenant: TenantId) {
    Matches(rows, id, tenant) && rows[id].status == Queued
  }

  function WithStatus(rows: Table, id: RunId, tenant: TenantId, status: Status): Table {
    if Matches(rows, id, tenant) then rows[id := rows[id].(status := status)] else rows
  }

  function AfterClaim(rows: Table, id: RunId, tenant: TenantId): Table {
    if Claimable(rows, id, tenant) then WithStatus(rows, id, tenant, Running) else rows
  }

  datatype CreateResult = Created(runId: RunId) | AlreadyRunning(activeId: RunId)

  /** How `run_eval` ends. */
  datatype Evaluation = Scored | Raised

  class EvalRuns {
    var rows: Table

    constructor ()
      ensures rows == map[]
    {
      rows := map[];
    }

    method NewestActive(tenant: TenantId) returns (found: Option<RunId>)
      ensures IsNewestActive(rows, tenant, found)
    {
      found := None;
      var ids := rows.Keys;
      while ids != {}
        invariant ids <= rows.Keys
        invariant found.None? ==> forall id :: id in rows.Keys - ids ==> !ActiveIn(rows, tenant, id)
        invariant found.Some? ==> ActiveIn(rows, tenant, found.value)
        invariant found.Some? ==>
                    forall id :: id in rows.Keys - ids && ActiveIn(rows, tenant, id) ==>
                                   rows[id].createdAt <= rows[found.value].createdAt
        decreases |ids|
      {
        var id :| id in ids;
        ids := ids - {id};
        if ActiveIn(rows, tenant, id) && (found.None? || rows[found.value].createdAt < rows[id].createdAt) {
          found := Some(id);
        }
      }
    }

    /** `create_eval_job`: refused exactly when the tenant has an active run that is not stale. */
    method CreateEvalJob(tenant: TenantId, runId: RunId, now: Time, staleTimeout: Time)
      returns (result: CreateResult)
      requires runId !in rows
      modifies this
      ensures result.AlreadyRunning? <==>
              exists id :: ActiveIn(old(rows), tenant, id) && old(rows)[id].createdAt >= now - staleTimeout
      ensures result.AlreadyRunning? ==> rows == FailAll(old(rows), StaleIds(old(rows), tenant, now - staleTimeout))
      ensures result.AlreadyRunning? ==> IsNewestActive(rows, tenant, Some(result.activeId))
      ensures result.Created? ==> result.runId == runId
      ensures result.Created? ==>
                rows == FailAll(old(rows), StaleIds(old(rows), tenant, now - staleTimeout))
                        [runId := EvalRun(tenant, Queued, now)]
      ensures forall id :: id in old(rows) ==>
                id in rows
                && rows[id] == if old(rows)[id].tenant == tenant && old(rows)[id].createdAt < now - staleTimeout
                                  && (old(rows)[id].status == Queued || old(rows)[id].status == Running)
                               then old(rows)[id].(status := Failed) else old(rows)[id]
    {
      rows := FailAll(rows, StaleIds(rows, tenant, now - staleTimeout));
      var found := NewestActive(tenant);
      if found.Some? {
        assert ActiveIn(old(rows), tenant, found.value);
        return AlreadyRunning(found.value);
      }
      forall id | ActiveIn(old(rows), tenant, id) ensures old(rows)[id].createdAt < now - staleTimeout {
        assert !ActiveIn(rows, tenant, id);
      }
      rows := rows[runId := EvalRun(tenant, Queued, now)];
      result := Created(runId);
    }

    /** `_claim_job` */
    method ClaimJob(id: RunId, tenant: TenantId) returns (claimed: bool)
      modifies this
      ensures claimed == Claimable(old(rows), id, tenant)
      ensures rows == AfterClaim(old(rows), id, tenant)
    {
      claimed := Claimable(rows, id, tenant);
      if claimed {
        rows := rows[id := rows[id].(status := Running)];
      }
    }

    /** `_set_job_status` and, for the completed status, `_complete_job` */
    method SetJobStatus(id: RunId, tenant: TenantId, status: Status)
      modifies this
      ensures rows == WithStatus(old(rows), id, tenant, status)
    {
      if Matches(rows, id, tenant) {
        rows := rows[id := rows[id].(status := status)];
      }
    }

    /** `run_eval_job` when nobody else writes: a queued run ends, and any other is left alone. */
    method RunEvalJob(id: RunId, tenant: TenantId, evaluation: Evaluation)
      modifies this
      ensures !Claimable(old(rows), id, tenant) ==> rows == old(rows)
      ensures Claimable(old(rows), id, tenant) ==>
                var end := if evaluation == Scored then Completed else Failed;
                rows == old(rows)[id := old(rows)[id].(status := end)]
    {
      var claimed := ClaimJob(id, tenant);
      if !claimed {
        return;
      }
      match evaluation
      case Scored => SetJobStatus(id, tenant, Completed);
      case Raised => SetJobStatus(id, tenant, Failed);
    }
  }

  // ---------------------------------------------------------------- one step further

  /** A status only moves on: queued, running, ended. */
  function Rank(status: Status): nat {
    match status
    case Queued => 0
    case Running => 1
    case Completed | Failed => 2
  }

  ghost predicate RowAdvances(before: EvalRun, after: EvalRun) {
    && before.tenant == after.tenant && before.createdAt == after.createdAt
    && Rank(before.status) <= Rank(after.status)
  }

  /** Rows stay, keep their tenant and age, and only move on. */
  ghost predicate Advances(before: Table, after: Table) {
    forall id :: id in before ==> id in after && RowAdvances(before[id], after[id])
  }

  /** At most one queued or running evaluation per tenant. */
  ghost predicate OneActive(rows: Table) {
    forall tenant, a, b :: ActiveIn(rows, tenant, a) && ActiveIn(rows, tenant, b) ==> a == b
  }

  /** `after` differs from `before` in one row at most, and that row has moved on. */
  ghost predicate OneRowAdvances(before: Table, after: Table, id: RunId) {
    && Advances(before, after)
    && after.Keys == before.Keys
    && forall other :: other in before && other != id ==> after[other] == before[other]
  }

  lemma WritesAdvance(rows: Table, id: RunId, tenant: TenantId, status: Status)
    requires Rank(status) == 2
    ensures OneRowAdvances(rows, WithStatus(rows, id, tenant, status), id)
    ensures OneRowAdvances(rows, AfterClaim(rows, id, tenant), id)
  {
  }

  lemma NoNewActive(before: Table, after: Table)
    requires OneActive(before) && Advances(before, after) && after.Keys == before.Keys
    ensures OneActive(after)
  {
    forall tenant, a, b | ActiveIn(after, tenant, a) && ActiveIn(after, tenant, b) ensures a == b {
      assert RowAdvances(before[a], after[a]) && RowAdvances(before[b], after[b]);
      assert ActiveIn(before, tenant, a) && ActiveIn(before, tenant, b);
    }
  }
}
