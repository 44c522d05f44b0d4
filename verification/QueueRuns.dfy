/** Any number of workers on one job table (ingestion/worker.py on top of ingestion/queue.py).
    A holder is a worker between its pick and its one `complete_job` or `fail_job`; it may be slow
    enough to outlive its stale timeout, or die without writing. */
module QueueRuns {
  import opened JobQueue
  import opened Options

  /** `holders[id]` counts the workers that hold job `id`. */
  datatype State = State(rows: Table, holders: multiset<JobId>, now: Time)

  datatype Event =
    | Tick(later: Time)
    | Enqueue(id: JobId, details: Details)
    | Pick(id: JobId, locked: set<JobId>)
    | Heartbeat(id: JobId)
    | Complete(id: JobId)
    | Fail(id: JobId, message: string, retry: bool)
    | Recover(locked: set<JobId>)
    | Crash(id: JobId)

  /** Heartbeats need no holder: a heartbeat thread may outlive its job. Completions and failures
      need one, but not that the row is still processing. */
  ghost predicate Enabled(s: State, e: Event) {
    match e
    case Tick(later) => s.now <= later
    case Enqueue(id, _) => id !in s.rows
    case Pick(id, locked) => IsNext(s.rows, locked, s.now, id)
    case Heartbeat(id) => id in s.rows
    case Complete(id) => id in s.holders && id in s.rows
    case Fail(id, _, _) => id in s.holders && id in s.rows
    case Recover(_) => true
    case Crash(id) => id in s.holders
  }

  ghost function Step(cfg: Config, s: State, e: Event): State
    requires Enabled(s, e)
  {
    match e
    case Tick(later) => s.(now := later)
    case Enqueue(id, details) => s.(rows := s.rows[id := NewJob(details, s.now, cfg.maxJobAttempts)])
    case Pick(id, _) => s.(rows := s.rows[id := Picked(s.rows[id], s.now)], holders := s.holders + multiset{id})
    case Heartbeat(id) => s.(rows := s.rows[id := Beaten(s.rows[id], s.now)])
    case Complete(id) =>
      s.(rows := s.rows[id := Finished(s.rows[id], s.now)], holders := s.holders - multiset{id})
    case Fail(id, message, retry) =>
      s.(rows := s.rows[id := GaveUp(s.rows[id], message, retry, s.now, cfg.retryDelay)],
         holders := s.holders - multiset{id})
    case Recover(locked) => s.(rows := AfterRecovery(s.rows, locked, s.now, cfg.staleTimeout))
    case Crash(id) => s.(holders := s.holders - multiset{id})
  }

  ghost predicate Run(cfg: Config, s: State, es: seq<Event>)
    decreases |es|
  {
    es == [] || (Enabled(s, es[0]) && Run(cfg, Step(cfg, s, es[0]), es[1..]))
  }

  ghost function After(cfg: Config, s: State, es: seq<Event>): State
    requires Run(cfg, s, es)
    decreases |es|
  {
    if es == [] then s else After(cfg, Step(cfg, s, es[0]), es[1..])
  }

  function Empty(now: Time): State {
    State(map[], multiset{}, now)
  }

  // ---------------------------------------------------------------- the row invariant

  predicate Open(job: Job) {
    job.status == Pending || job.status == Processing
  }

  /** What every row satisfies at every moment, late writers included. */
  predicate RowOk(job: Job, now: Time, cfg: Config) {
    && job.attempts <= job.maxAttempts == cfg.maxJobAttempts
    && (job.status == Pending ==> job.attempts < job.maxAttempts)
    && (job.completedAt == None <==> Open(job))
    && (job.status == Processing ==>
          && job.attempts >= 1
          && job.startedAt.Some? && job.lastHeartbeatAt.Some?
          && job.startedAt.value <= job.lastHeartbeatAt.value <= now)
    && (job.retryAfter.Some? ==> Open(job))
    && (job.status == Processing && job.retryAfter.Some? ==> job.retryAfter.value <= job.startedAt.value)
    && (job.status == Pending || job.status == Failed ==> job.lastHeartbeatAt == None)
    && (job.status == Completed ==> job.lastHeartbeatAt == job.completedAt)
    && (job.completedAt.Some? ==> job.createdAt <= job.completedAt.value <= now)
    && (job.startedAt.Some? ==> job.createdAt <= job.startedAt.value)
    && (job.status == Failed ==> job.error.Some?)
    && job.createdAt <= now
    && (job.error.Some? ==> |job.error.value| <= ERROR_MESSAGE_MAX_LENGTH)
  }

  ghost predicate Inv(s: State, cfg: Config) {
    && (forall id :: id in s.rows ==> RowOk(s.rows[id], s.now, cfg))
    && (forall id :: id in s.holders ==> id in s.rows)
  }

  /** Each statement keeps the row it writes in order. */
  lemma WritesKeepRowOk(job: Job, now: Time, cfg: Config, message: string, retry: bool)
    requires cfg.Valid() && RowOk(job, now, cfg)
    ensures Runnable(job, now) ==> RowOk(Picked(job, now), now, cfg)
    ensures RowOk(Beaten(job, now), now, cfg)
    ensures RowOk(Finished(job, now), now, cfg)
    ensures RowOk(GaveUp(job, message, retry, now, cfg.retryDelay), now, cfg)
    ensures RowOk(Recovered(job, now), now, cfg)
  {
  }

  lemma RowOkLater(job: Job, now: Time, later: Time, cfg: Config)
    requires RowOk(job, now, cfg) && now <= later
    ensures RowOk(job, later, cfg)
  {
  }

  lemma InvStep(cfg: Config, s: State, e: Event)
    requires cfg.Valid() && Inv(s, cfg) && Enabled(s, e)
    ensures Inv(Step(cfg, s, e), cfg)
  {
    var after := Step(cfg, s, e);
    forall id | id in after.rows ensures RowOk(after.rows[id], after.now, cfg) {
      if id in s.rows {
        RowStep(cfg, s, e, id);
      }
    }
  }

  lemma RowStep(cfg: Config, s: State, e: Event, id: JobId)
    requires cfg.Valid() && Enabled(s, e) && id in s.rows && RowOk(s.rows[id], s.now, cfg)
    ensures id in Step(cfg, s, e).rows
    ensures RowOk(Step(cfg, s, e).rows[id], Step(cfg, s, e).now, cfg)
  {
    hide RowOk, Picked, Beaten, Finished, GaveUp, Recovered, IsStale;
    var message, retry := if e.Fail? then e.message else "", e.Fail? && e.retry;
    WritesKeepRowOk(s.rows[id], s.now, cfg, message, retry);
    RowOkLater(s.rows[id], s.now, Step(cfg, s, e).now, cfg);
  }

  /** The row invariant holds in every state of every run. */
  lemma {:induction false} InvRun(cfg: Config, s: State, es: seq<Event>)
    requires cfg.Valid() && Inv(s, cfg) && Run(cfg, s, es)
    ensures Inv(After(cfg, s, es), cfg)
    decreases |es|
  {
    if es != [] {
      InvStep(cfg, s, es[0]);
      InvRun(cfg, Step(cfg, s, es[0]), es[1..]);
    }
  }

  // ---------------------------------------------------------------- bounded work

  /** The steps that advance job `id`. */
  predicate Advances(s: State, e: Event, id: JobId, cfg: Config) {
    match e
    case Pick(j, _) => j == id
    case Complete(j) => j == id
    case Fail(j, _, _) => j == id
    case Crash(j) => j == id
    case Recover(locked) => id in s.rows && id !in locked && IsStale(s.rows[id], s.now, cfg.staleTimeout)
    case _ => false
  }

  /** What is left of job `id`: three for every attempt it may still make, one for every holder,
      one for being processed. */
  function Budget(s: State, id: JobId, cfg: Config): int {
    if id in s.rows then
      3 * (s.rows[id].maxAttempts - s.rows[id].attempts)
      + s.holders[id]
      + (if s.rows[id].status == Processing then 1 else 0)
    else 3 * cfg.maxJobAttempts
  }

  lemma BudgetStep(cfg: Config, s: State, e: Event, id: JobId)
    requires cfg.Valid() && Inv(s, cfg) && Enabled(s, e)
    ensures Budget(s, id, cfg) >= 0
    ensures Budget(Step(cfg, s, e), id, cfg) <= Budget(s, id, cfg)
    ensures Advances(s, e, id, cfg) ==> Budget(Step(cfg, s, e), id, cfg) < Budget(s, id, cfg)
  {
    assert id !in s.rows ==> s.holders[id] == 0;
    assert id in s.rows ==> RowOk(s.rows[id], s.now, cfg);
    if e.Recover? {
      BudgetAfterRecovery(cfg, s, e.locked, id);
    } else {
      hide Truncate, LastSeen, IsStale, AfterRecovery, RowOk, IsNext;
      if e.Pick? {
        NextIsRunnable(s, e.id, e.locked);
      }
    }
  }

  lemma BudgetAfterRecovery(cfg: Config, s: State, locked: set<JobId>, id: JobId)
    requires id in s.rows ==> s.rows[id].attempts <= s.rows[id].maxAttempts
    ensures var after := Step(cfg, s, Recover(locked));
            && Budget(after, id, cfg) <= Budget(s, id, cfg)
            && (Advances(s, Recover(locked), id, cfg) ==> Budget(after, id, cfg) < Budget(s, id, cfg))
  {
    hide LastSeen;
  }

  ghost function AdvanceCount(cfg: Config, s: State, es: seq<Event>, id: JobId): nat
    requires Run(cfg, s, es)
    decreases |es|
  {
    if es == [] then 0
    else (if Advances(s, es[0], id, cfg) then 1 else 0) + AdvanceCount(cfg, Step(cfg, s, es[0]), es[1..], id)
  }

  function PickCount(es: seq<Event>, id: JobId): nat {
    if es == [] then 0
    else (if es[0].Pick? && es[0].id == id then 1 else 0) + PickCount(es[1..], id)
  }

  function Attempts(s: State, id: JobId): nat {
    if id in s.rows then s.rows[id].attempts else 0
  }

  lemma {:induction false} BudgetRun(cfg: Config, s: State, es: seq<Event>, id: JobId)
    requires cfg.Valid() && Inv(s, cfg) && Run(cfg, s, es)
    ensures AdvanceCount(cfg, s, es, id) + Budget(After(cfg, s, es), id, cfg) <= Budget(s, id, cfg)
    decreases |es|
  {
    if es != [] {
      InvStep(cfg, s, es[0]);
      BudgetStep(cfg, s, es[0], id);
      BudgetRun(cfg, Step(cfg, s, es[0]), es[1..], id);
    }
  }

  lemma AttemptsStep(cfg: Config, s: State, e: Event, id: JobId)
    requires Enabled(s, e)
    ensures Attempts(Step(cfg, s, e), id) == Attempts(s, id) + if e.Pick? && e.id == id then 1 else 0
  {
  }

  /** Nothing changes what a job is about. */
  lemma DetailsStay(cfg: Config, s: State, e: Event, id: JobId)
    requires Enabled(s, e) && id in s.rows
    ensures id in Step(cfg, s, e).rows && Step(cfg, s, e).rows[id].details == s.rows[id].details
  {
    hide IsNext, IsStale, LastSeen, Truncate;
  }

  lemma {:induction false} PicksAreAttempts(cfg: Config, s: State, es: seq<Event>, id: JobId)
    requires cfg.Valid() && Inv(s, cfg) && Run(cfg, s, es)
    ensures Attempts(After(cfg, s, es), id) == Attempts(s, id) + PickCount(es, id)
    decreases |es|
  {
    if es != [] {
      InvStep(cfg, s, es[0]);
      AttemptsStep(cfg, s, es[0], id);
      PicksAreAttempts(cfg, Step(cfg, s, es[0]), es[1..], id);
    }
  }

  /** However the workers interleave, a job takes at most three steps for each allowed attempt, and
      its pipeline is started at most `max_attempts` times. */
  lemma JobWorkIsBounded(cfg: Config, now: Time, es: seq<Event>, id: JobId)
    requires cfg.Valid() && Run(cfg, Empty(now), es)
    ensures AdvanceCount(cfg, Empty(now), es, id) <= 3 * cfg.maxJobAttempts
    ensures PickCount(es, id) <= cfg.maxJobAttempts
  {
    var s := Empty(now);
    BudgetRun(cfg, s, es, id);
    PicksAreAttempts(cfg, s, es, id);
    InvRun(cfg, s, es);
    var end := After(cfg, s, es);
    assert id !in end.rows ==> Attempts(end, id) == 0;
    assert id in end.rows ==> RowOk(end.rows[id], end.now, cfg);
  }

  // ---------------------------------------------------------------- no stuck job

  /** From when on an open job passes the conditions of the statement that moves it on: a pending one
      those of picking, a processing one those of recovery. */
  lemma OpenJobsCanMove(cfg: Config, s: State, id: JobId)
    requires cfg.Valid() && Inv(s, cfg) && id in s.rows && Open(s.rows[id])
    ensures var job := s.rows[id];
            if job.status == Pending
            then forall t: Time :: Runnable(job, t) <==> (job.retryAfter.Some? ==> job.retryAfter.value <= t)
            else forall t: Time :: IsStale(job, t, cfg.staleTimeout)
                                   <==> t > job.lastHeartbeatAt.value + cfg.staleTimeout
  {
  }

  /** The jobs that a picking statement without locked rows may take. */
  function Candidates(s: State): set<JobId> {
    set id | id in s.rows && Candidate(s.rows, {}, s.now, id)
  }

  lemma {:induction false} OldestAmong(s: State, ids: set<JobId>) returns (oldest: JobId)
    requires ids != {} && forall id :: id in ids ==> id in s.rows
    ensures oldest in ids && forall id :: id in ids ==> s.rows[oldest].createdAt <= s.rows[id].createdAt
    decreases |ids|
  {
    var id :| id in ids;
    oldest := id;
    if ids != {id} {
      var rest := ids - {id};
      assert ids == rest + {id};
      var other := OldestAmong(s, rest);
      if s.rows[other].createdAt < s.rows[id].createdAt {
        oldest := other;
      }
    }
  }

  ghost predicate OnlyPicks(es: seq<Event>) {
    forall i :: 0 <= i < |es| ==> es[i].Pick? && es[i].locked == {}
  }

  lemma PickedLeaves(cfg: Config, s: State, next: JobId)
    requires cfg.Valid() && Inv(s, cfg) && Enabled(s, Pick(next, {}))
    ensures next in Candidates(s)
    ensures Candidates(Step(cfg, s, Pick(next, {}))) == Candidates(s) - {next}
  {
    hide RowOk;
    var after := Step(cfg, s, Pick(next, {}));
    forall id ensures id in Candidates(after) <==> id in Candidates(s) && id != next {
    }
  }

  /** Picks alone, with no row locked, come to every candidate: the older ones go first. */
  lemma {:induction false} CandidateIsReached(cfg: Config, s: State, id: JobId)
    requires cfg.Valid() && Inv(s, cfg) && id in Candidates(s)
    ensures exists es :: OnlyPicks(es) && Run(cfg, s, es) && Enabled(After(cfg, s, es), Pick(id, {}))
    decreases |Candidates(s)|
  {
    var next := OldestAmong(s, Candidates(s));
    forall other | Candidate(s.rows, {}, s.now, other) ensures s.rows[next].createdAt <= s.rows[other].createdAt {
      assert other in Candidates(s);
    }
    hide Candidate;
    if next == id {
      var es: seq<Event> := [];
      assert OnlyPicks(es) && Run(cfg, s, es) && After(cfg, s, es) == s;
    } else {
      var pick := Pick(next, {});
      InvStep(cfg, s, pick);
      PickedLeaves(cfg, s, next);
      var after := Step(cfg, s, pick);
      CandidateIsReached(cfg, after, id);
      var later :| OnlyPicks(later) && Run(cfg, after, later) && Enabled(After(cfg, after, later), Pick(id, {}));
      PrependPick(cfg, s, pick, later);
    }
  }

  lemma PrependPick(cfg: Config, s: State, pick: Event, later: seq<Event>)
    requires Enabled(s, pick) && pick.Pick? && pick.locked == {}
    requires OnlyPicks(later) && Run(cfg, Step(cfg, s, pick), later)
    ensures var es := [pick] + later;
            OnlyPicks(es) && Run(cfg, s, es) && After(cfg, s, es) == After(cfg, Step(cfg, s, pick), later)
  {
    hide Enabled, Step;
    var es := [pick] + later;
    assert es[0] == pick && es[1..] == later;
  }

  /** After the clock has moved on, and then picks alone, the job itself can be picked. */
  ghost predicate PickComes(cfg: Config, s: State, id: JobId) {
    exists t: Time, es :: s.now <= t && OnlyPicks(es) && Run(cfg, s.(now := t), es)
                       && Enabled(After(cfg, s.(now := t), es), Pick(id, {}))
  }

  /** After the clock has moved on, one recovery takes the job out of processing: to wait for its next
      attempt if it has one left. */
  ghost predicate RecoveryComes(cfg: Config, s: State, id: JobId)
    requires id in s.rows
  {
    exists t: Time :: s.now <= t && IsTakenBack(s.rows[id], Step(cfg, s.(now := t), Recover({})).rows[id], t)
  }

  predicate IsTakenBack(before: Job, after: Job, t: Time) {
    if before.attempts < before.maxAttempts
    then after.status == Pending && after.retryAfter == Some(t)
    else after.status == Failed && after.completedAt == Some(t)
  }

  /** No job is stuck: every pending job can be picked after a while, whatever jobs wait in front of it,
      and every processing one is taken back by a recovery after a while without a heartbeat. */
  lemma NoJobIsStuck(cfg: Config, s: State, id: JobId)
    requires cfg.Valid() && Inv(s, cfg) && id in s.rows && Open(s.rows[id])
    ensures if s.rows[id].status == Pending then PickComes(cfg, s, id) else RecoveryComes(cfg, s, id)
  {
    OpenJobsCanMove(cfg, s, id);
    var job := s.rows[id];
    if job.status == Pending {
      var t := if job.retryAfter.Some? && job.retryAfter.value > s.now then job.retryAfter.value else s.now;
      var later := s.(now := t);
      InvStep(cfg, s, Tick(t));
      assert id in Candidates(later);
      CandidateIsReached(cfg, later, id);
      assert PickComes(cfg, s, id);
    } else {
      var due := job.lastHeartbeatAt.value + cfg.staleTimeout + 1;
      var t := if due > s.now then due else s.now;
      assert IsStale(job, t, cfg.staleTimeout);
      assert IsTakenBack(job, Step(cfg, s.(now := t), Recover({})).rows[id], t);
    }
  }

  // ---------------------------------------------------------------- back-off

  /** Job `id` cannot start again before `t`. */
  predicate Resting(s: State, id: JobId, t: Time) {
    && id in s.rows
    && s.rows[id].status != Processing
    && (s.rows[id].status == Pending ==> s.rows[id].retryAfter.Some? && s.rows[id].retryAfter.value >= t)
  }

  lemma {:induction false} RestingRun(cfg: Config, s: State, es: seq<Event>, id: JobId, failedAt: Time)
    requires cfg.Valid() && Inv(s, cfg) && Run(cfg, s, es)
    requires failedAt <= s.now && Resting(s, id, failedAt + cfg.retryDelay)
    requires After(cfg, s, es).now < failedAt + cfg.retryDelay
    ensures PickCount(es, id) == 0
    ensures Resting(After(cfg, s, es), id, failedAt + cfg.retryDelay)
    decreases |es|
  {
    if es != [] {
      var next := Step(cfg, s, es[0]);
      InvStep(cfg, s, es[0]);
      ClockGrows(cfg, next, es[1..]);
      RestingStep(cfg, s, es[0], id, failedAt);
      hide Resting, Inv, Step, Enabled;
      RestingRun(cfg, next, es[1..], id, failedAt);
    }
  }

  /** After a failure, the job is not picked before the retry delay is over, in any run and whatever
      other holders of the same job write meanwhile. */
  lemma NoPickBeforeDelay(cfg: Config, s: State, id: JobId, message: string, retry: bool, es: seq<Event>)
    requires cfg.Valid() && Inv(s, cfg) && Enabled(s, Fail(id, message, retry))
    requires Run(cfg, Step(cfg, s, Fail(id, message, retry)), es)
    requires After(cfg, Step(cfg, s, Fail(id, message, retry)), es).now < s.now + cfg.retryDelay
    ensures PickCount(es, id) == 0
  {
    var fail := Fail(id, message, retry);
    InvStep(cfg, s, fail);
    assert Resting(Step(cfg, s, fail), id, s.now + cfg.retryDelay);
    RestingRun(cfg, Step(cfg, s, fail), es, id, s.now);
  }

  lemma RestingStep(cfg: Config, s: State, e: Event, id: JobId, failedAt: Time)
    requires Enabled(s, e) && failedAt <= s.now && Resting(s, id, failedAt + cfg.retryDelay)
    requires Step(cfg, s, e).now < failedAt + cfg.retryDelay
    ensures failedAt <= Step(cfg, s, e).now && !(e.Pick? && e.id == id)
    ensures Resting(Step(cfg, s, e), id, failedAt + cfg.retryDelay)
  {
    hide Truncate, LastSeen, IsNext;
    if e.Pick? {
      NextIsRunnable(s, e.id, e.locked);
    }
  }

  lemma NextIsRunnable(s: State, id: JobId, locked: set<JobId>)
    requires IsNext(s.rows, locked, s.now, id)
    ensures id in s.rows && Runnable(s.rows[id], s.now)
  {
  }

  lemma {:induction false} ClockGrows(cfg: Config, s: State, es: seq<Event>)
    requires Run(cfg, s, es)
    ensures s.now <= After(cfg, s, es).now
    decreases |es|
  {
    if es != [] {
      ClockGrows(cfg, Step(cfg, s, es[0]), es[1..]);
    }
  }

  // ---------------------------------------------------------------- exclusive holders

  predicate HeldAlone(s: State, id: JobId) {
    s.holders[id] == 1 && id in s.rows && s.rows[id].status == Processing
  }

  /** A held job is being processed, by one holder only. */
  ghost predicate Exclusive(s: State) {
    forall id :: id in s.holders ==> HeldAlone(s, id)
  }

  /** Every held job the recovery may touch has been heard of within the stale timeout. */
  ghost predicate HoldersAlive(s: State, locked: set<JobId>, cfg: Config) {
    forall id :: id in s.holders && id in s.rows && id !in locked ==> IsRecent(s.rows[id].lastHeartbeatAt, s.now, cfg)
  }

  predicate IsRecent(heartbeat: Option<Time>, now: Time, cfg: Config) {
    heartbeat.Some? && now - heartbeat.value <= cfg.staleTimeout
  }

  /** Exclusive holding survives every step except a recovery of a job that is still held. */
  lemma ExclusiveStep(cfg: Config, s: State, e: Event)
    requires cfg.Valid() && Inv(s, cfg) && Enabled(s, e) && Exclusive(s)
    ensures Exclusive(Step(cfg, s, e)) <==> (e.Recover? ==> HoldersAlive(s, e.locked, cfg))
  {
    if e.Recover? {
      ExclusiveRecovery(cfg, s, e.locked);
    } else {
      hide RowOk;
      var after := Step(cfg, s, e);
      forall id | id in after.holders ensures HeldAlone(after, id) {
        HeldStep(cfg, s, e, id);
      }
    }
  }

  lemma HeldStep(cfg: Config, s: State, e: Event, id: JobId)
    requires Enabled(s, e) && !e.Recover? && id in Step(cfg, s, e).holders
    requires id in s.holders ==> HeldAlone(s, id)
    ensures HeldAlone(Step(cfg, s, e), id)
  {
    hide LastSeen, IsStale, Truncate, AfterRecovery;
  }

  lemma ExclusiveRecovery(cfg: Config, s: State, locked: set<JobId>)
    requires cfg.Valid() && Inv(s, cfg) && Exclusive(s)
    ensures Exclusive(Step(cfg, s, Recover(locked))) <==> HoldersAlive(s, locked, cfg)
  {
    if !HoldersAlive(s, locked, cfg) {
      var id :| id in s.holders && id in s.rows && id !in locked && !IsRecent(s.rows[id].lastHeartbeatAt, s.now, cfg);
      assert RowOk(s.rows[id], s.now, cfg);
      assert IsStale(s.rows[id], s.now, cfg.staleTimeout);
      assert Step(cfg, s, Recover(locked)).rows[id].status != Processing;
    }
  }

  /** At every recovery of the run, the heartbeats of all held jobs are recent enough. */
  ghost predicate KeepUp(cfg: Config, s: State, es: seq<Event>)
    requires Run(cfg, s, es)
    decreases |es|
  {
    es != [] ==>
      && (es[0].Recover? ==> HoldersAlive(s, es[0].locked, cfg))
      && KeepUp(cfg, Step(cfg, s, es[0]), es[1..])
  }

  /** If heartbeats keep up, then throughout the run a held job is being processed by exactly one
      worker, and a job that has come to an end never changes again. */
  lemma {:induction false} ExclusiveRun(cfg: Config, s: State, es: seq<Event>, id: JobId)
    requires cfg.Valid() && Inv(s, cfg) && Exclusive(s) && Run(cfg, s, es) && KeepUp(cfg, s, es)
    ensures Exclusive(After(cfg, s, es))
    ensures id in s.rows && !Open(s.rows[id]) ==>
              id in After(cfg, s, es).rows && After(cfg, s, es).rows[id] == s.rows[id]
    decreases |es|
  {
    if es != [] {
      InvStep(cfg, s, es[0]);
      ExclusiveStep(cfg, s, es[0]);
      if id in s.rows && !Open(s.rows[id]) {
        SettledStep(cfg, s, es[0], id);
      }
      ExclusiveRun(cfg, Step(cfg, s, es[0]), es[1..], id);
    }
  }

  // ---------------------------------------------------------------- ended rows

  /** The run leaves the row as it is. */
  ghost predicate RowKept(cfg: Config, s: State, es: seq<Event>, id: JobId)
    requires id in s.rows && Run(cfg, s, es)
  {
    id in After(cfg, s, es).rows && After(cfg, s, es).rows[id] == s.rows[id]
  }

  predicate Settled(s: State, id: JobId) {
    id in s.rows && !Open(s.rows[id]) && id !in s.holders
  }

  lemma SettledStep(cfg: Config, s: State, e: Event, id: JobId)
    requires Enabled(s, e) && Settled(s, id)
    ensures Settled(Step(cfg, s, e), id) && Step(cfg, s, e).rows[id] == s.rows[id]
  {
  }

  lemma {:induction false} SettledRun(cfg: Config, s: State, es: seq<Event>, id: JobId)
    requires Run(cfg, s, es) && Settled(s, id)
    ensures RowKept(cfg, s, es, id)
    decreases |es|
  {
    if es != [] {
      hide Enabled, Step;
      SettledStep(cfg, s, es[0], id);
      SettledRun(cfg, Step(cfg, s, es[0]), es[1..], id);
    }
  }

  /** Exactly when a completed or failed row never changes again: in every run, with slow workers and
      without heartbeats, if and only if nobody holds the job. */
  lemma EndedRowFixedIff(cfg: Config, s: State, id: JobId)
    requires id in s.rows && !Open(s.rows[id])
    ensures (forall es :: Run(cfg, s, es) ==> RowKept(cfg, s, es, id)) <==> id !in s.holders
  {
    if id !in s.holders {
      forall es | Run(cfg, s, es) ensures RowKept(cfg, s, es, id) {
        SettledRun(cfg, s, es, id);
      }
    } else {
      LateFailureChanges(cfg, s, id);
    }
  }

  lemma LateFailureChanges(cfg: Config, s: State, id: JobId)
    requires id in s.rows && id in s.holders
    ensures exists es :: Run(cfg, s, es) && !RowKept(cfg, s, es, id)
  {
    var message := if s.rows[id].error == Some("a") then "b" else "a";
    var es := [Fail(id, message, true)];
    assert es[1..] == [];
    NoSteps(cfg, Step(cfg, s, es[0]));
    assert Step(cfg, s, es[0]).rows[id].error == Some(message);
    assert Run(cfg, s, es) && !RowKept(cfg, s, es, id);
  }

  lemma {:induction false} ExtendRun(cfg: Config, s: State, es: seq<Event>, e: Event)
    requires Run(cfg, s, es) && Enabled(After(cfg, s, es), e)
    ensures Run(cfg, s, es + [e])
    ensures After(cfg, s, es + [e]) == Step(cfg, After(cfg, s, es), e)
    decreases |es|
  {
    if es == [] {
      assert es + [e] == [e];
    } else {
      ExtendRun(cfg, Step(cfg, s, es[0]), es[1..], e);
      assert (es + [e])[1..] == es[1..] + [e];
    }
  }

  const CFG: Config := Config(3, 60, 900)

  /** A worker falls silent, its job is recovered and picked again. */
  function SlowWorker(details: Details): seq<Event> {
    [Enqueue("job", details), Pick("job", {}), Tick(901), Recover({}), Pick("job", {})]
  }

  ghost predicate Reaches(es: seq<Event>, holders: nat, status: Status) {
    && Run(CFG, Empty(0), es)
    && var s := After(CFG, Empty(0), es);
       s.holders["job"] == holders && "job" in s.rows && s.rows["job"].status == status
  }

  /** Without that, a slow worker shares its job with a second one, and its late failure reopens the
      job after the second one has completed it. */
  lemma SlowWorkerReopensCompletedJob(details: Details)
    ensures Reaches(SlowWorker(details), 2, Processing)
    ensures Reaches(SlowWorker(details) + [Complete("job")], 1, Completed)
    ensures Reaches(SlowWorker(details) + [Complete("job")] + [Fail("job", "late", true)], 0, Pending)
  {
    var s0 := Empty(0);
    var es: seq<Event> := [];
    hide Run, After, AfterRecovery;
    NoSteps(CFG, s0);
    ExtendRun(CFG, s0, es, Enqueue("job", details));
    es := es + [Enqueue("job", details)];
    ExtendRun(CFG, s0, es, Pick("job", {}));
    es := es + [Pick("job", {})];
    ExtendRun(CFG, s0, es, Tick(901));
    es := es + [Tick(901)];
    RecoveryOfStale(After(CFG, s0, es).rows, 901, 900, "job");
    ExtendRun(CFG, s0, es, Recover({}));
    es := es + [Recover({})];
    ExtendRun(CFG, s0, es, Pick("job", {}));
    es := es + [Pick("job", {})];
    assert es == SlowWorker(details);
    ExtendRun(CFG, s0, es, Complete("job"));
    ExtendRun(CFG, s0, es + [Complete("job")], Fail("job", "late", true));
  }

  lemma NoSteps(cfg: Config, s: State)
    ensures Run(cfg, s, []) && After(cfg, s, []) == s
  {
  }

  lemma RecoveryOfStale(rows: Table, now: Time, staleTimeout: nat, id: JobId)
    requires id in rows && IsStale(rows[id], now, staleTimeout) && rows.Keys == {id}
    ensures AfterRecovery(rows, {}, now, staleTimeout) == map[id := Recovered(rows[id], now)]
  {
  }
}
