/** The ingestion job table (ingestion/queue.py): every SQL statement is one atomic step on the
    table, `NOW()` is the time it is given. */
module JobQueue {
  import opened Options

  type JobId = string
  type Time = int

  datatype Status = Pending | Processing | Completed | Failed

  datatype Details = Details(tenantId: string, documentId: string, filename: string, filePath: string)

  datatype Job = Job(details: Details, status: Status, attempts: nat, maxAttempts: nat,
                     error: Option<string>, createdAt: Time, startedAt: Option<Time>,
                     lastHeartbeatAt: Option<Time>, completedAt: Option<Time>, retryAfter: Option<Time>)

  type Table = map<JobId, Job>

  /** The settings `positive_int_env` reads. */
  datatype Config = Config(maxJobAttempts: nat, retryDelay: nat, staleTimeout: nat) {
    predicate Valid() {
      maxJobAttempts >= 1 && retryDelay >= 1 && staleTimeout >= 1
    }
  }

  const ERROR_MESSAGE_MAX_LENGTH := 500
  const TIMED_OUT := "Job timed out while processing"

  // ---------------------------------------------------------------- rows

  function NewJob(details: Details, now: Time, maxAttempts: nat): Job {
    Job(details, Pending, 0, maxAttempts, None, now, None, None, None, None)
  }

  predicate Runnable(job: Job, now: Time) {
    && job.status == Pending
    && job.attempts < job.maxAttempts
    && (job.retryAfter == None || job.retryAfter.value <= now)
  }

  function Picked(job: Job, now: Time): Job {
    job.(status := Processing, attempts := job.attempts + 1, startedAt := Some(now),
         lastHeartbeatAt := Some(now), completedAt := None)
  }

  function Beaten(job: Job, now: Time): Job {
    if job.status == Processing then job.(lastHeartbeatAt := Some(now)) else job
  }

  /** `complete_job` does not look at the status it overwrites. */
  function Finished(job: Job, now: Time): Job {
    job.(status := Completed, completedAt := Some(now), retryAfter := None, lastHeartbeatAt := Some(now))
  }

  function Truncate(message: string): string {
    if |message| <= ERROR_MESSAGE_MAX_LENGTH then message else message[..ERROR_MESSAGE_MAX_LENGTH]
  }

  /** Nor does `fail_job`: it retries whatever has attempts left. */
  function GaveUp(job: Job, message: string, retry: bool, now: Time, retryDelay: nat): Job {
    var again := retry && job.attempts < job.maxAttempts;
    job.(status := if again then Pending else Failed,
         error := Some(Truncate(message)),
         retryAfter := if again then Some(now + retryDelay) else None,
         completedAt := if again then None else Some(now),
         lastHeartbeatAt := None)
  }

  function LastSeen(job: Job): Time {
    if job.lastHeartbeatAt.Some? then job.lastHeartbeatAt.value
    else if job.startedAt.Some? then job.startedAt.value
    else job.createdAt
  }

  predicate IsStale(job: Job, now: Time, staleTimeout: nat) {
    job.status == Processing && LastSeen(job) < now - staleTimeout
  }

  function Recovered(job: Job, now: Time): Job {
    var spent := job.attempts >= job.maxAttempts;
    job.(status := if spent then Failed else Pending,
         error := if spent then Some(TIMED_OUT) else job.error,
         retryAfter := if spent then None else Some(now),
         startedAt := None,
         lastHeartbeatAt := None,
         completedAt := if spent then Some(now) else None)
  }

  // ---------------------------------------------------------------- statements

  /** What recovery leaves of an unlocked row, column by column. */
  predicate AfterTimeout(before: Job, after: Job, now: Time, staleTimeout: nat) {
    var silent := && before.status == Processing
                  && (if before.lastHeartbeatAt.Some? then before.lastHeartbeatAt.value < now - staleTimeout
                      else if before.startedAt.Some? then before.startedAt.value < now - staleTimeout
                      else before.createdAt < now - staleTimeout);
    if !silent then after == before
    else
      && after.details == before.details && after.createdAt == before.createdAt
      && after.attempts == before.attempts && after.maxAttempts == before.maxAttempts
      && after.startedAt == None && after.lastHeartbeatAt == None
      && (before.attempts < before.maxAttempts ==>
            && after.status == Pending && after.error == before.error
            && after.retryAfter == Some(now) && after.completedAt == None)
      && (before.attempts >= before.maxAttempts ==>
            && after.status == Failed && after.error == Some(TIMED_OUT)
            && after.retryAfter == None && after.completedAt == Some(now))
  }

  predicate Candidate(rows: Table, locked: set<JobId>, now: Time, id: JobId) {
    id in rows && id !in locked && Runnable(rows[id], now)
  }

  /** The job the picking statement updates: runnable, not locked by another transaction, and none
      such is older. */
  ghost predicate IsNext(rows: Table, locked: set<JobId>, now: Time, id: JobId) {
    && Candidate(rows, locked, now, id)
    && forall other :: Candidate(rows, locked, now, other) ==> rows[id].createdAt <= rows[other].createdAt
  }

  function StaleIds(rows: Table, locked: set<JobId>, now: Time, staleTimeout: nat): set<JobId> {
    set id | id in rows && id !in locked && IsStale(rows[id], now, staleTimeout)
  }

  function AfterRecovery(rows: Table, locked: set<JobId>, now: Time, staleTimeout: nat): Table {
    map id | id in rows ::
      if id !in locked && IsStale(rows[id], now, staleTimeout) then Recovered(rows[id], now) else rows[id]
  }

  datatype PickedJob = PickedJob(id: JobId, details: Details, attempts: nat, maxAttempts: nat,
                                 lastHeartbeatAt: Option<Time>)

  datatype FailResult = FailResult(status: Status, attempts: nat, maxAttempts: nat,
                                   retryAfter: Option<Time>, completedAt: Option<Time>)

  datatype Recovery = Recovery(id: JobId, documentId: string, status: Status, attempts: nat, maxAttempts: nat)

  function RecoveryOf(rows: Table, id: JobId): Recovery
    requires id in rows
  {
    Recovery(id, rows[id].details.documentId, rows[id].status, rows[id].attempts, rows[id].maxAttempts)
  }

  /** `recovered` reports each of the `ids` once, as the table now has it. */
  ghost predicate Reports(recovered: seq<Recovery>, ids: set<JobId>, rows: Table) {
    && ids <= rows.Keys
    && (forall i :: 0 <= i < |recovered| ==>
          recovered[i].id in ids && recovered[i] == RecoveryOf(rows, recovered[i].id))
    && (forall i, j :: 0 <= i < j < |recovered| ==> recovered[i].id != recovered[j].id)
    && |recovered| == |ids|
  }

  lemma ReportOneMore(recovered: seq<Recovery>, done: set<JobId>, id: JobId, rows: Table)
    requires Reports(recovered, done, rows) && id in rows && id !in done
    ensures Reports(recovered + [RecoveryOf(rows, id)], done + {id}, rows)
  {
  }

  /** The rows `RETURNING` hands back, as a list. */
  method Report(rows: Table, ids: set<JobId>) returns (recovered: seq<Recovery>)
    requires ids <= rows.Keys
    ensures Reports(recovered, ids, rows)
  {
    recovered := [];
    var done: set<JobId> := {};
    assert Reports(recovered, done, rows);
    hide Reports;
    while ids - done != {}
      invariant done <= ids
      invariant Reports(recovered, done, rows)
      decreases ids - done
    {
      var id :| id in ids - done;
      ReportOneMore(recovered, done, id, rows);
      recovered := recovered + [RecoveryOf(rows, id)];
      done := done + {id};
    }
    assert done == ids;
  }

  class IngestionJobs {
    const config: Config
    var rows: Table

    constructor (config: Config)
      requires config.Valid()
      ensures this.config == config && rows == map[]
    {
      this.config := config;
      rows := map[];
    }

    /** `enqueue_job`; the table gives every job a fresh id. */
    method EnqueueJob(id: JobId, details: Details, now: Time) returns (r: JobId)
      requires id !in rows
      modifies this
      ensures r == id
      ensures rows == old(rows)[id := NewJob(details, now, config.maxJobAttempts)]
    {
      rows := rows[id := NewJob(details, now, config.maxJobAttempts)];
      r := id;
    }

    /** `pick_next_job` */
    method PickNextJob(now: Time, locked: set<JobId>) returns (picked: Option<PickedJob>)
      modifies this
      ensures picked.None? ==> rows == old(rows) && forall id :: !Candidate(rows, locked, now, id)
      ensures picked.Some? ==>
                var id := picked.value.id;
                && IsNext(old(rows), locked, now, id)
                && rows == old(rows)[id := Picked(old(rows)[id], now)]
                && picked.value == PickedJob(id, rows[id].details, rows[id].attempts, rows[id].maxAttempts,
                                             rows[id].lastHeartbeatAt)
    {
      var todo := rows.Keys;
      var best: Option<JobId> := None;
      while todo != {}
        invariant todo <= rows.Keys
        invariant best.None? ==> forall id :: Candidate(rows, locked, now, id) ==> id in todo
        invariant best.Some? ==>
                    && Candidate(rows, locked, now, best.value)
                    && forall id :: Candidate(rows, locked, now, id) && id !in todo ==>
                                      rows[best.value].createdAt <= rows[id].createdAt
        decreases todo
      {
        var id :| id in todo;
        todo := todo - {id};
        if Candidate(rows, locked, now, id) && (best.None? || rows[id].createdAt < rows[best.value].createdAt) {
          best := Some(id);
        }
      }
      if best.None? {
        return None;
      }
      rows := rows[best.value := Picked(rows[best.value], now)];
      var job := rows[best.value];
      picked := Some(PickedJob(best.value, job.details, job.attempts, job.maxAttempts, job.lastHeartbeatAt));
    }

    /** `heartbeat_job` */
    method HeartbeatJob(id: JobId, now: Time)
      modifies this
      ensures rows == if id in old(rows) then old(rows)[id := Beaten(old(rows)[id], now)] else old(rows)
    {
      if id in rows {
        rows := rows[id := Beaten(rows[id], now)];
      }
    }

    /** `complete_job` */
    method CompleteJob(id: JobId, now: Time)
      modifies this
      ensures rows == if id in old(rows) then old(rows)[id := Finished(old(rows)[id], now)] else old(rows)
    {
      if id in rows {
        rows := rows[id := Finished(rows[id], now)];
      }
    }

    /** `fail_job` */
    method FailJob(id: JobId, message: string, retry: bool, now: Time) returns (result: Option<FailResult>)
      modifies this
      ensures id !in old(rows) ==> rows == old(rows) && result == None
      ensures id in old(rows) ==>
                var job := GaveUp(old(rows)[id], message, retry, now, config.retryDelay);
                && rows == old(rows)[id := job]
                && result == Some(FailResult(job.status, job.attempts, job.maxAttempts, job.retryAfter,
                                             job.completedAt))
    {
      if id !in rows {
        return None;
      }
      var job := GaveUp(rows[id], message, retry, now, config.retryDelay);
      rows := rows[id := job];
      result := Some(FailResult(job.status, job.attempts, job.maxAttempts, job.retryAfter, job.completedAt));
    }

    /** `recover_stale_jobs`: the returned list names every recovered job exactly once. */
    method RecoverStaleJobs(now: Time, locked: set<JobId>) returns (recovered: seq<Recovery>)
      modifies this
      ensures rows == AfterRecovery(old(rows), locked, now, config.staleTimeout)
      ensures rows.Keys == old(rows.Keys)
      ensures forall id :: id in old(rows) ==>
                if id in locked then rows[id] == old(rows)[id]
                else AfterTimeout(old(rows)[id], rows[id], now, config.staleTimeout)
      ensures Reports(recovered, StaleIds(old(rows), locked, now, config.staleTimeout), rows)
    {
      var stale := StaleIds(rows, locked, now, config.staleTimeout);
      rows := AfterRecovery(rows, locked, now, config.staleTimeout);
      recovered := Report(rows, stale);
    }
  }
}
