/** What a step of the queue does to a job, column by column, and what ends a job (ingestion/queue.py).
    Everything is said in the columns of the table. */
module QueueLaws {
  import opened Options
  import opened JobQueue
  import opened QueueRuns

  /** The step is the failure of the job by one of its holders. */
  predicate GivesUp(e: Event, id: JobId) {
    e.Fail? && e.id == id
  }

  /** The step is a recovery that finds the job unlocked, processing, and without a recent heartbeat. */
  predicate TakesBack(s: State, e: Event, id: JobId, cfg: Config) {
    && e.Recover? && id in s.rows && id !in e.locked
    && s.rows[id].status == Processing && s.rows[id].lastHeartbeatAt.Some?
    && s.rows[id].lastHeartbeatAt.value < s.now - cfg.staleTimeout
  }

  /** The step requeues the job: it has attempts left, and its worker wants a retry or has gone. */
  predicate Requeues(s: State, e: Event, id: JobId, cfg: Config) {
    && id in s.rows && s.rows[id].attempts < s.rows[id].maxAttempts
    && ((GivesUp(e, id) && e.retry) || TakesBack(s, e, id, cfg))
  }

  /** The step fails the job for good: no retry is wanted, or no attempt is left. */
  predicate FailsForGood(s: State, e: Event, id: JobId, cfg: Config) {
    && id in s.rows
    && ((GivesUp(e, id) && (!e.retry || s.rows[id].attempts >= s.rows[id].maxAttempts))
        || (TakesBack(s, e, id, cfg) && s.rows[id].attempts >= s.rows[id].maxAttempts))
  }

  /** The step brings the job to processing exactly if it is picked, to completed exactly if it is
      completed, and to failed or pending exactly under the conditions above. */
  predicate StatusAfter(s: State, e: Event, id: JobId, cfg: Config, after: Status)
    requires id in s.rows
  {
    var before := s.rows[id].status;
    && (before != Processing ==> (after == Processing <==> e.Pick? && e.id == id))
    && (before != Completed ==> (after == Completed <==> e == Complete(id)))
    && (before != Failed ==> (after == Failed <==> FailsForGood(s, e, id, cfg)))
    && (before != Pending ==> (after == Pending <==> Requeues(s, e, id, cfg)))
  }

  /** Which step brings a job to which status: for every status, both directions. */
  lemma StatusLaw(cfg: Config, s: State, e: Event, id: JobId)
    requires cfg.Valid() && Inv(s, cfg) && Enabled(s, e) && id in s.rows
    ensures id in Step(cfg, s, e).rows && StatusAfter(s, e, id, cfg, Step(cfg, s, e).rows[id].status)
  {
    assert RowOk(s.rows[id], s.now, cfg);
    hide StatusAfter, Truncate;
    if e.Recover? {
      RecoveryStatus(cfg, s, e, id);
    } else {
      hide RowOk, IsNext;
      OtherStatus(cfg, s, e, id);
    }
  }

  lemma RecoveryStatus(cfg: Config, s: State, e: Event, id: JobId)
    requires e.Recover? && id in s.rows
    requires s.rows[id].status == Processing ==> s.rows[id].lastHeartbeatAt.Some?
    ensures StatusAfter(s, e, id, cfg, Step(cfg, s, e).rows[id].status)
  {
  }

  lemma OtherStatus(cfg: Config, s: State, e: Event, id: JobId)
    requires Enabled(s, e) && !e.Recover? && id in s.rows
    ensures id in Step(cfg, s, e).rows && StatusAfter(s, e, id, cfg, Step(cfg, s, e).rows[id].status)
  {
    hide Truncate, LastSeen, AfterRecovery, IsNext;
    if e.Pick? {
      NextIsRunnable(s, e.id, e.locked);
    }
  }

  /** Every column after every step. */
  ghost predicate ColumnsAfter(cfg: Config, s: State, e: Event, id: JobId, after: Job)
    requires id in s.rows
  {
    var before := s.rows[id];
    var picked, completed := e.Pick? && e.id == id, e == Complete(id);
    var requeued, failed := Requeues(s, e, id, cfg), FailsForGood(s, e, id, cfg);
    && after.details == before.details && after.createdAt == before.createdAt
    && after.maxAttempts == before.maxAttempts
    && after.attempts == (if picked then before.attempts + 1 else before.attempts)
    && after.retryAfter == (if requeued then Some(if GivesUp(e, id) then s.now + cfg.retryDelay else s.now)
                            else if failed || completed then None else before.retryAfter)
    && after.completedAt == (if failed || completed then Some(s.now)
                             else if requeued || picked then None else before.completedAt)
    && after.startedAt == (if picked then Some(s.now) else if TakesBack(s, e, id, cfg) then None else before.startedAt)
    && after.lastHeartbeatAt == (if picked || completed || (e == Heartbeat(id) && before.status == Processing)
                                 then Some(s.now)
                                 else if requeued || failed then None else before.lastHeartbeatAt)
    && (GivesUp(e, id) ==> IsCut(after.error, e.message))
    && (TakesBack(s, e, id, cfg) && failed ==> after.error == Some("Job timed out while processing"))
    && (!GivesUp(e, id) && !failed ==> after.error == before.error)
  }

  /** The stored message is the start of the message, 500 characters of it if there are as many. */
  predicate IsCut(error: Option<string>, message: string) {
    error.Some? && error.value <= message && (|message| <= 500 ==> error.value == message)
                && (|message| > 500 ==> |error.value| == 500)
  }

  lemma ColumnsLaw(cfg: Config, s: State, e: Event, id: JobId)
    requires cfg.Valid() && Inv(s, cfg) && Enabled(s, e) && id in s.rows
    ensures id in Step(cfg, s, e).rows
    ensures ColumnsAfter(cfg, s, e, id, Step(cfg, s, e).rows[id])
  {
    assert RowOk(s.rows[id], s.now, cfg);
    hide ColumnsAfter;
    if e.Recover? {
      RecoveryColumns(cfg, s, e, id);
    } else if e.Pick? {
      PickColumns(cfg, s, e, id);
    } else if GivesUp(e, id) {
      FailureColumns(cfg, s, e, id);
    } else {
      OtherColumns(cfg, s, e, id);
    }
  }

  lemma OtherColumns(cfg: Config, s: State, e: Event, id: JobId)
    requires Enabled(s, e) && !e.Recover? && !e.Pick? && !GivesUp(e, id) && id in s.rows
    ensures ColumnsAfter(cfg, s, e, id, Step(cfg, s, e).rows[id])
  {
    hide IsNext, IsCut, GaveUp, AfterRecovery;
  }

  lemma PickColumns(cfg: Config, s: State, e: Event, id: JobId)
    requires Enabled(s, e) && e.Pick? && id in s.rows
    ensures ColumnsAfter(cfg, s, e, id, Step(cfg, s, e).rows[id])
  {
    hide IsNext, IsCut, GaveUp, AfterRecovery;
  }

  lemma RecoveryColumns(cfg: Config, s: State, e: Event, id: JobId)
    requires Enabled(s, e) && e.Recover? && id in s.rows
    requires s.rows[id].status == Processing ==> s.rows[id].lastHeartbeatAt.Some?
    ensures ColumnsAfter(cfg, s, e, id, Step(cfg, s, e).rows[id])
  {
    hide IsCut;
  }

  lemma FailureColumns(cfg: Config, s: State, e: Event, id: JobId)
    requires Enabled(s, e) && GivesUp(e, id) && id in s.rows
    ensures ColumnsAfter(cfg, s, e, id, Step(cfg, s, e).rows[id])
  {
  }

  // ---------------------------------------------------------------- when a job can be picked

  /** A worker that finds every other row locked can pick the job exactly if it is pending and its time has
      come: attempts are always left then. */
  lemma PickableIff(cfg: Config, s: State, id: JobId)
    requires cfg.Valid() && Inv(s, cfg) && id in s.rows
    ensures Enabled(s, Pick(id, s.rows.Keys - {id}))
       <==> && s.rows[id].status == Pending
            && (s.rows[id].retryAfter.Some? ==> s.rows[id].retryAfter.value <= s.now)
  {
    assert RowOk(s.rows[id], s.now, cfg);
    hide Truncate, LastSeen;
  }

  /** A failed job that is requeued can be picked again from the end of the retry delay on, and not before. */
  lemma RetryDelayIsExact(cfg: Config, s: State, id: JobId, message: string, later: Time)
    requires cfg.Valid() && Inv(s, cfg) && Enabled(s, Fail(id, message, true)) && s.now <= later
    requires s.rows[id].attempts < s.rows[id].maxAttempts
    ensures var waiting := Step(cfg, Step(cfg, s, Fail(id, message, true)), Tick(later));
            Enabled(waiting, Pick(id, waiting.rows.Keys - {id})) <==> later >= s.now + cfg.retryDelay
  {
    var fail := Fail(id, message, true);
    StatusLaw(cfg, s, fail, id);
    ColumnsLaw(cfg, s, fail, id);
    InvStep(cfg, s, fail);
    var failed := Step(cfg, s, fail);
    hide Inv, RowOk;
    InvStep(cfg, failed, Tick(later));
    PickableIff(cfg, Step(cfg, failed, Tick(later)), id);
  }

  /** A job that a recovery requeues can be picked at once. */
  lemma RecoveredJobIsPickable(cfg: Config, s: State, id: JobId, locked: set<JobId>)
    requires cfg.Valid() && Inv(s, cfg) && TakesBack(s, Recover(locked), id, cfg)
    requires s.rows[id].attempts < s.rows[id].maxAttempts
    ensures var after := Step(cfg, s, Recover(locked));
            Enabled(after, Pick(id, after.rows.Keys - {id}))
  {
    var recover := Recover(locked);
    StatusLaw(cfg, s, recover, id);
    ColumnsLaw(cfg, s, recover, id);
    InvStep(cfg, s, recover);
    hide Inv, RowOk, Enabled, Step;
    PickableIff(cfg, Step(cfg, s, recover), id);
  }

  // ---------------------------------------------------------------- every attempt is used

  /** Some holder has given the job up without wanting a retry. */
  ghost predicate GivenUp(es: seq<Event>, id: JobId) {
    exists k :: 0 <= k < |es| && GivesUp(es[k], id) && !es[k].retry
  }

  predicate FailedIsSpent(s: State, id: JobId, givenUp: bool) {
    id in s.rows && s.rows[id].status == Failed ==> s.rows[id].attempts >= s.rows[id].maxAttempts || givenUp
  }

  lemma GivenUpLater(es: seq<Event>, id: JobId)
    requires es != []
    ensures GivenUp(es, id) <==> (GivesUp(es[0], id) && !es[0].retry) || GivenUp(es[1..], id)
  {
    if GivenUp(es, id) && !(GivesUp(es[0], id) && !es[0].retry) {
      var k :| 0 <= k < |es| && GivesUp(es[k], id) && !es[k].retry;
      assert GivesUp(es[1..][k - 1], id);
    }
    if GivenUp(es[1..], id) {
      var k :| 0 <= k < |es[1..]| && GivesUp(es[1..][k], id) && !es[1..][k].retry;
      assert GivesUp(es[k + 1], id);
    }
  }

  lemma SpentStep(cfg: Config, s: State, e: Event, id: JobId, givenUp: bool)
    requires cfg.Valid() && Inv(s, cfg) && Enabled(s, e) && FailedIsSpent(s, id, givenUp)
    ensures FailedIsSpent(Step(cfg, s, e), id, givenUp || (GivesUp(e, id) && !e.retry))
  {
    if id in s.rows {
      StatusLaw(cfg, s, e, id);
      ColumnsLaw(cfg, s, e, id);
    }
  }

  lemma {:induction false} SpentRun(cfg: Config, s: State, es: seq<Event>, id: JobId, givenUp: bool)
    requires cfg.Valid() && Inv(s, cfg) && Run(cfg, s, es) && FailedIsSpent(s, id, givenUp)
    ensures FailedIsSpent(After(cfg, s, es), id, givenUp || GivenUp(es, id))
    decreases |es|
  {
    if es != [] {
      InvStep(cfg, s, es[0]);
      SpentStep(cfg, s, es[0], id, givenUp);
      GivenUpLater(es, id);
      hide Inv, Enabled, Step, FailedIsSpent, GivenUp, GivesUp;
      SpentRun(cfg, Step(cfg, s, es[0]), es[1..], id, givenUp || (GivesUp(es[0], id) && !es[0].retry));
    }
  }

  /** No attempt is given away: whatever the workers, recoveries and crashes, a failed job has been
      started max_attempts times, unless one of its workers wanted no retry. */
  lemma FailedMeansAllAttemptsMade(cfg: Config, now: Time, es: seq<Event>, id: JobId)
    requires cfg.Valid() && Run(cfg, Empty(now), es) && !GivenUp(es, id)
    requires id in After(cfg, Empty(now), es).rows && After(cfg, Empty(now), es).rows[id].status == Failed
    ensures PickCount(es, id) == cfg.maxJobAttempts
  {
    var end := After(cfg, Empty(now), es);
    InvRun(cfg, Empty(now), es);
    SpentRun(cfg, Empty(now), es, id, false);
    PicksAreAttempts(cfg, Empty(now), es, id);
    assert RowOk(end.rows[id], end.now, cfg);
  }

  // ---------------------------------------------------------------- first come, first served

  /** Nothing has happened to the job since it was enqueued. */
  predicate Untried(s: State, id: JobId, createdAt: Time) {
    && id in s.rows && id !in s.holders
    && s.rows[id].status == Pending && s.rows[id].attempts == 0 && s.rows[id].retryAfter == None
    && s.rows[id].createdAt == createdAt
  }

  lemma UntriedStep(cfg: Config, s: State, e: Event, id: JobId, createdAt: Time)
    requires cfg.Valid() && Inv(s, cfg) && Enabled(s, e) && Untried(s, id, createdAt)
    requires !(e.Pick? && e.id == id)
    ensures Untried(Step(cfg, s, e), id, createdAt)
  {
    StatusLaw(cfg, s, e, id);
    ColumnsLaw(cfg, s, e, id);
    hide Inv, LastSeen, Truncate;
  }

  lemma {:induction false} UntriedRun(cfg: Config, s: State, es: seq<Event>, id: JobId, createdAt: Time)
    requires cfg.Valid() && Inv(s, cfg) && Run(cfg, s, es) && Untried(s, id, createdAt) && PickCount(es, id) == 0
    ensures Untried(After(cfg, s, es), id, createdAt) && Inv(After(cfg, s, es), cfg)
    decreases |es|
  {
    if es != [] {
      InvStep(cfg, s, es[0]);
      UntriedStep(cfg, s, es[0], id, createdAt);
      hide Inv, Enabled, Step, Untried;
      UntriedRun(cfg, Step(cfg, s, es[0]), es[1..], id, createdAt);
    }
  }

  /** First come, first served: until a job is picked for the first time, no job created after it is
      picked, except by a worker that finds its row locked. */
  lemma FirstComeFirstServed(cfg: Config, s: State, id: JobId, details: Details, es: seq<Event>,
                             other: JobId, locked: set<JobId>)
    requires cfg.Valid() && Inv(s, cfg) && Enabled(s, Enqueue(id, details))
    requires Run(cfg, Step(cfg, s, Enqueue(id, details)), es) && PickCount(es, id) == 0
    requires Enabled(After(cfg, Step(cfg, s, Enqueue(id, details)), es), Pick(other, locked))
    ensures other in After(cfg, Step(cfg, s, Enqueue(id, details)), es).rows
    ensures id in locked || After(cfg, Step(cfg, s, Enqueue(id, details)), es).rows[other].createdAt <= s.now
  {
    var enqueue := Enqueue(id, details);
    var first := Step(cfg, s, enqueue);
    InvStep(cfg, s, enqueue);
    assert Untried(first, id, s.now);
    UntriedRun(cfg, first, es, id, s.now);
    var end := After(cfg, first, es);
    assert RowOk(end.rows[id], end.now, cfg);
    assert id !in locked ==> Candidate(end.rows, locked, end.now, id);
  }
}
