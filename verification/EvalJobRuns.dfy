/** Every interleaving of `create_eval_job` transactions and `run_eval_job` invocations on one
    `eval_runs` table (eval/auto_eval.py). A creation is a transaction of several statements, so its
    writes show only at its commit and the rows it has written are locked until then; the functions
    of an invocation are transactions of one statement each. Any number of invocations may run the
    same id, and each may fail or die anywhere. */
module EvalJobRuns {
  import opened Options
  import opened EvalJobs

  /** `lockKey` is `hashtext` on the tenant's key; collisions are allowed. */
  datatype Setup = Setup(lockKey: TenantId -> int, staleTimeout: Time)

  /** Where a creation is: before its lock, then after each statement. */
  datatype Phase =
    | Waiting
    | Locked
    | Patched(stale: set<RunId>)
    | Checked(stale: set<RunId>, found: Option<RunId>)

  /** `begun` is the transaction's `NOW()`. */
  datatype Create = Create(tenant: TenantId, runId: RunId, begun: Time, phase: Phase)

  datatype Stage = Starting | Claimed | Evaluating | Failing

  datatype Invocation = Invocation(runId: RunId, tenant: TenantId, stage: Stage)

  /** `entered[id]` counts the times `run_eval` has been entered for `id`. */
  datatype State = State(rows: Table, creates: map<nat, Create>, invocations: map<nat, Invocation>,
                         entered: multiset<RunId>, now: Time)

  /** `committed`: whether the statement took effect; `reply`: whether its caller saw it return. */
  datatype Event =
    | Tick(later: Time)
    | Begin(c: nat, tenant: TenantId, runId: RunId)
    | Lock(c: nat)
    | Patch(c: nat)
    | Check(c: nat, newest: Option<RunId>)
    | Commit(c: nat)
    | Abort(c: nat)
    | Invoke(i: nat, runId: RunId, tenant: TenantId)
    | Claim(i: nat, committed: bool, reply: bool)
    | Enter(i: nat)
    | Raise(i: nat)
    | Complete(i: nat, committed: bool, reply: bool)
    | SetFailed(i: nat, committed: bool)
    | Crash(i: nat)

  function Stale(c: Create): set<RunId> {
    if c.phase.Patched? || c.phase.Checked? then c.phase.stale else {}
  }

  function Cutoff(setup: Setup, c: Create): Time {
    c.begun - setup.staleTimeout
  }

  /** No open transaction has written the row. */
  ghost predicate RowFree(s: State, id: RunId) {
    forall c :: c in s.creates ==> id !in Stale(s.creates[c])
  }

  ghost predicate LockFree(setup: Setup, s: State, tenant: TenantId) {
    forall c :: c in s.creates && !s.creates[c].phase.Waiting? ==>
                  setup.lockKey(s.creates[c].tenant) != setup.lockKey(tenant)
  }

  /** A random identifier is one that nothing has. */
  ghost predicate FreshId(s: State, id: RunId) {
    id !in s.rows && forall c :: c in s.creates ==> s.creates[c].runId != id
  }

  predicate InPhase(s: State, c: nat, phase: Phase) {
    c in s.creates && s.creates[c].phase == phase
  }

  predicate InStage(s: State, i: nat, stage: Stage) {
    i in s.invocations && s.invocations[i].stage == stage
  }

  ghost predicate Enabled(setup: Setup, s: State, e: Event) {
    match e
    case Tick(later) => s.now <= later
    case Begin(c, _, runId) => c !in s.creates && FreshId(s, runId)
    case Lock(c) => InPhase(s, c, Waiting) && LockFree(setup, s, s.creates[c].tenant)
    case Patch(c) =>
      && InPhase(s, c, Locked)
      && forall id :: id in StaleIds(s.rows, s.creates[c].tenant, Cutoff(setup, s.creates[c])) ==> RowFree(s, id)
    case Check(c, newest) =>
      && c in s.creates && s.creates[c].phase.Patched?
      && IsNewestActive(FailAll(s.rows, s.creates[c].phase.stale), s.creates[c].tenant, newest)
    case Commit(c) => c in s.creates && s.creates[c].phase.Checked?
    case Abort(c) => c in s.creates
    case Invoke(i, _, _) => i !in s.invocations
    case Claim(i, committed, reply) =>
      && InStage(s, i, Starting) && (reply ==> committed)
      && var job := s.invocations[i];
         (committed && Claimable(s.rows, job.runId, job.tenant) ==> RowFree(s, job.runId))
    case Enter(i) => InStage(s, i, Claimed)
    case Raise(i) => InStage(s, i, Claimed) || InStage(s, i, Evaluating)
    case Complete(i, committed, reply) =>
      && InStage(s, i, Evaluating) && (reply ==> committed)
      && var job := s.invocations[i];
         (committed && Matches(s.rows, job.runId, job.tenant) ==> RowFree(s, job.runId))
    case SetFailed(i, committed) =>
      && InStage(s, i, Failing)
      && var job := s.invocations[i];
         (committed && Matches(s.rows, job.runId, job.tenant) ==> RowFree(s, job.runId))
    case Crash(i) => i in s.invocations
  }

  function CommitRows(rows: Table, c: Create): Table
    requires c.phase.Checked?
  {
    var patched := FailAll(rows, c.phase.stale);
    if c.phase.found.Some? then patched else patched[c.runId := EvalRun(c.tenant, Queued, c.begun)]
  }

  /** The table after the event. */
  ghost function RowsAfter(setup: Setup, s: State, e: Event): Table
    requires Enabled(setup, s, e)
  {
    match e
    case Commit(c) => CommitRows(s.rows, s.creates[c])
    case Claim(i, committed, _) =>
      if committed then AfterClaim(s.rows, s.invocations[i].runId, s.invocations[i].tenant) else s.rows
    case Complete(i, committed, _) =>
      if committed then WithStatus(s.rows, s.invocations[i].runId, s.invocations[i].tenant, Completed) else s.rows
    case SetFailed(i, committed) =>
      if committed then WithStatus(s.rows, s.invocations[i].runId, s.invocations[i].tenant, Failed) else s.rows
    case _ => s.rows
  }

  ghost function CreatesAfter(setup: Setup, s: State, e: Event): map<nat, Create>
    requires Enabled(setup, s, e)
  {
    match e
    case Begin(c, tenant, runId) => s.creates[c := Create(tenant, runId, s.now, Waiting)]
    case Lock(c) => s.creates[c := s.creates[c].(phase := Locked)]
    case Patch(c) =>
      var stale := StaleIds(s.rows, s.creates[c].tenant, Cutoff(setup, s.creates[c]));
      s.creates[c := s.creates[c].(phase := Patched(stale))]
    case Check(c, newest) => s.creates[c := s.creates[c].(phase := Checked(s.creates[c].phase.stale, newest))]
    case Commit(c) => s.creates - {c}
    case Abort(c) => s.creates - {c}
    case _ => s.creates
  }

  function MoveTo(jobs: map<nat, Invocation>, i: nat, stage: Stage): map<nat, Invocation>
    requires i in jobs
  {
    jobs[i := jobs[i].(stage := stage)]
  }

  ghost function InvocationsAfter(setup: Setup, s: State, e: Event): map<nat, Invocation>
    requires Enabled(setup, s, e)
  {
    match e
    case Invoke(i, runId, tenant) => s.invocations[i := Invocation(runId, tenant, Starting)]
    case Claim(i, _, reply) =>
      if !reply then MoveTo(s.invocations, i, Failing)
      else if Claimable(s.rows, s.invocations[i].runId, s.invocations[i].tenant) then MoveTo(s.invocations, i, Claimed)
      else s.invocations - {i}
    case Enter(i) => MoveTo(s.invocations, i, Evaluating)
    case Raise(i) => MoveTo(s.invocations, i, Failing)
    case Complete(i, _, reply) => if reply then s.invocations - {i} else MoveTo(s.invocations, i, Failing)
    case SetFailed(i, _) => s.invocations - {i}
    case Crash(i) => s.invocations - {i}
    case _ => s.invocations
  }

  ghost function Step(setup: Setup, s: State, e: Event): State
    requires Enabled(setup, s, e)
  {
    State(RowsAfter(setup, s, e), CreatesAfter(setup, s, e), InvocationsAfter(setup, s, e),
          if e.Enter? then s.entered + multiset{s.invocations[e.i].runId} else s.entered,
          if e.Tick? then e.later else s.now)
  }

  ghost predicate Run(setup: Setup, s: State, es: seq<Event>)
    decreases |es|
  {
    es == [] || (Enabled(setup, s, es[0]) && Run(setup, Step(setup, s, es[0]), es[1..]))
  }

  ghost function After(setup: Setup, s: State, es: seq<Event>): State
    requires Run(setup, s, es)
    decreases |es|
  {
    if es == [] then s else After(setup, Step(setup, s, es[0]), es[1..])
  }

  function Empty(now: Time): State {
    State(map[], map[], map[], multiset{}, now)
  }

  // ---------------------------------------------------------------- the invariant

  /** The ids of open creations are new and distinct. */
  ghost predicate IdsOk(rows: Table, creates: map<nat, Create>) {
    && (forall c :: c in creates ==> creates[c].runId !in rows)
    && (forall c, d :: c in creates && d in creates && creates[c].runId == creates[d].runId ==> c == d)
  }

  predicate SameLock(setup: Setup, creates: map<nat, Create>, c: nat, d: nat) {
    && c in creates && d in creates && !creates[c].phase.Waiting? && !creates[d].phase.Waiting?
    && setup.lockKey(creates[c].tenant) == setup.lockKey(creates[d].tenant)
  }

  /** At most one creation of a tenant is past its lock. */
  ghost predicate LocksOk(setup: Setup, creates: map<nat, Create>) {
    forall c, d :: SameLock(setup, creates, c, d) ==> c == d
  }

  /** What a creation has seen stays true until it ends: its stale set is the tenant's stale set,
      and what it found out about active runs can only become more true. */
  ghost predicate CreateOk(setup: Setup, rows: Table, c: Create) {
    && (c.phase.Patched? || c.phase.Checked? ==> c.phase.stale == StaleIds(rows, c.tenant, Cutoff(setup, c)))
    && (c.phase.Checked? && c.phase.found.None? ==>
          forall id :: ActiveIn(rows, c.tenant, id) ==> id in c.phase.stale)
    && (c.phase.Checked? && c.phase.found.Some? ==> IsRecent(rows, c.tenant, c.phase.found.value, Cutoff(setup, c)))
  }

  predicate IsRecent(rows: Table, tenant: TenantId, id: RunId, cutoff: Time) {
    id in rows && rows[id].tenant == tenant && rows[id].createdAt >= cutoff
  }

  ghost predicate CreatesOk(setup: Setup, s: State) {
    forall c :: c in s.creates ==> CreateOk(setup, s.rows, s.creates[c])
  }

  ghost predicate Started(rows: Table, id: RunId) {
    id in rows && rows[id].status != Queued
  }

  predicate SameClaim(s: State, i: nat, j: nat) {
    InStage(s, i, Claimed) && InStage(s, j, Claimed) && s.invocations[i].runId == s.invocations[j].runId
  }

  /** A run is claimed once, and entered once by the invocation that claimed it. */
  ghost predicate ClaimsOk(s: State) {
    && (forall id :: id in s.entered ==> s.entered[id] == 1 && Started(s.rows, id))
    && (forall i :: InStage(s, i, Claimed) ==>
          Started(s.rows, s.invocations[i].runId) && s.invocations[i].runId !in s.entered)
    && (forall i, j :: SameClaim(s, i, j) ==> i == j)
  }

  ghost predicate Inv(setup: Setup, s: State) {
    IdsOk(s.rows, s.creates) && LocksOk(setup, s.creates) && CreatesOk(setup, s) && OneActive(s.rows) && ClaimsOk(s)
  }

  // ---------------------------------------------------------------- one step

  /** The one row an invocation's statement may write, if any. */
  ghost predicate IsWrite(e: Event) {
    (e.Claim? || e.Complete? || e.SetFailed?) && e.committed
  }

  lemma WriteStep(setup: Setup, s: State, e: Event)
    requires Enabled(setup, s, e) && IsWrite(e)
    ensures OneRowAdvances(s.rows, RowsAfter(setup, s, e), s.invocations[e.i].runId)
    ensures RowsAfter(setup, s, e) != s.rows ==> RowFree(s, s.invocations[e.i].runId)
  {
    hide OneRowAdvances, RowFree;
    var job := s.invocations[e.i];
    WritesAdvance(s.rows, job.runId, job.tenant, if e.SetFailed? then Failed else Completed);
  }

  lemma CommitAdvances(rows: Table, c: Create)
    requires c.phase.Checked? && c.runId !in rows
    ensures Advances(rows, CommitRows(rows, c))
  {
  }

  /** Every event moves the rows on. */
  lemma StepAdvances(setup: Setup, s: State, e: Event)
    requires IdsOk(s.rows, s.creates) && Enabled(setup, s, e)
    ensures Advances(s.rows, RowsAfter(setup, s, e))
  {
    if e.Commit? {
      hide Advances, CommitRows;
      CommitAdvances(s.rows, s.creates[e.c]);
    } else if IsWrite(e) {
      hide RowsAfter;
      WriteStep(setup, s, e);
    } else {
      hide Enabled;
    }
  }

  lemma IdsStep(setup: Setup, s: State, e: Event)
    requires IdsOk(s.rows, s.creates) && Enabled(setup, s, e)
    ensures IdsOk(RowsAfter(setup, s, e), CreatesAfter(setup, s, e))
  {
    if IsWrite(e) {
      hide RowsAfter;
      WriteStep(setup, s, e);
    } else if e.Commit? {
      hide Enabled;
      assert forall id :: id in RowsAfter(setup, s, e) ==> id in s.rows || id == s.creates[e.c].runId;
    } else {
      hide RowFree, LockFree, IsNewestActive, Claimable, Matches;
    }
  }

  lemma LocksStep(setup: Setup, s: State, e: Event)
    requires LocksOk(setup, s.creates) && Enabled(setup, s, e)
    ensures LocksOk(setup, CreatesAfter(setup, s, e))
  {
    hide RowFree, IsNewestActive, Claimable, Matches;
    var after := CreatesAfter(setup, s, e);
    forall c, d | SameLock(setup, after, c, d) ensures c == d {
      assert SameLock(setup, s.creates, c, d) || e == Lock(c) || e == Lock(d);
    }
  }

  // What a creation knows.

  lemma WriteKeepsCreateOk(setup: Setup, before: Table, after: Table, id: RunId, c: Create)
    requires CreateOk(setup, before, c) && OneRowAdvances(before, after, id)
    requires after != before ==> id !in Stale(c)
    ensures CreateOk(setup, after, c)
  {
    if after != before && !c.phase.Waiting? && !c.phase.Locked? {
      StaleUnchanged(before, after, id, c.tenant, Cutoff(setup, c));
    }
  }

  lemma StaleUnchanged(before: Table, after: Table, id: RunId, tenant: TenantId, cutoff: Time)
    requires OneRowAdvances(before, after, id) && id !in StaleIds(before, tenant, cutoff)
    ensures StaleIds(after, tenant, cutoff) == StaleIds(before, tenant, cutoff)
  {
    forall other ensures other in StaleIds(after, tenant, cutoff) <==> other in StaleIds(before, tenant, cutoff) {
      if other in before {
        assert RowAdvances(before[other], after[other]);
      }
    }
  }

  lemma CommitKeepsCreateOk(setup: Setup, rows: Table, d: Create, c: Create)
    requires CreateOk(setup, rows, c) && CreateOk(setup, rows, d) && d.phase.Checked? && d.runId !in rows
    requires c.tenant != d.tenant
    ensures CreateOk(setup, CommitRows(rows, d), c)
  {
    var after := CommitRows(rows, d);
    forall id ensures ActiveIn(after, c.tenant, id) <==> ActiveIn(rows, c.tenant, id) {
    }
    assert StaleIds(after, c.tenant, Cutoff(setup, c)) == StaleIds(rows, c.tenant, Cutoff(setup, c));
  }

  lemma PatchAndCheckOk(setup: Setup, rows: Table, c: Create, newest: Option<RunId>)
    requires c.phase.Patched? && CreateOk(setup, rows, c)
    requires IsNewestActive(FailAll(rows, c.phase.stale), c.tenant, newest)
    ensures CreateOk(setup, rows, c.(phase := Checked(c.phase.stale, newest)))
  {
    var patched := FailAll(rows, c.phase.stale);
    if newest.None? {
      forall id | ActiveIn(rows, c.tenant, id) ensures id in c.phase.stale {
        assert !ActiveIn(patched, c.tenant, id);
      }
    }
  }

  lemma TenantsApart(setup: Setup, creates: map<nat, Create>, c: nat, d: nat)
    requires LocksOk(setup, creates) && c != d && c in creates && d in creates
    requires !creates[c].phase.Waiting? && !creates[d].phase.Waiting?
    ensures creates[c].tenant != creates[d].tenant
  {
    assert SameLock(setup, creates, c, d) ==> c == d;
  }

  lemma CreatesStep(setup: Setup, s: State, e: Event)
    requires IdsOk(s.rows, s.creates) && LocksOk(setup, s.creates) && CreatesOk(setup, s) && Enabled(setup, s, e)
    ensures CreatesOk(setup, Step(setup, s, e))
  {
    hide IsNewestActive, Claimable, Matches;
    var after := Step(setup, s, e);
    forall c | c in after.creates ensures CreateOk(setup, after.rows, after.creates[c]) {
      CreateStep(setup, s, e, c);
    }
  }

  lemma CreateStep(setup: Setup, s: State, e: Event, c: nat)
    requires IdsOk(s.rows, s.creates) && LocksOk(setup, s.creates) && CreatesOk(setup, s) && Enabled(setup, s, e)
    requires c in CreatesAfter(setup, s, e)
    ensures CreateOk(setup, RowsAfter(setup, s, e), CreatesAfter(setup, s, e)[c])
  {
    if IsWrite(e) {
      hide RowsAfter, OneRowAdvances, CreateOk, Matches, Claimable;
      WriteStep(setup, s, e);
      WriteKeepsCreateOk(setup, s.rows, RowsAfter(setup, s, e), s.invocations[e.i].runId, s.creates[c]);
    } else if e.Commit? {
      hide CommitRows, StaleIds, FailAll;
      if !s.creates[c].phase.Waiting? {
        TenantsApart(setup, s.creates, c, e.c);
        CommitKeepsCreateOk(setup, s.rows, s.creates[e.c], s.creates[c]);
      }
    } else if e == Check(c, if e.Check? then e.newest else None) {
      hide CreateOk;
      PatchAndCheckOk(setup, s.rows, s.creates[c], e.newest);
    } else {
      hide RowFree, LockFree, FreshId, IsNewestActive, Claimable, Matches;
      QuietCreate(setup, s, e, c);
    }
  }

  /** Events that change no row and move creation `c` on no further than its patch. */
  lemma QuietCreate(setup: Setup, s: State, e: Event, c: nat)
    requires CreatesOk(setup, s) && Enabled(setup, s, e) && !IsWrite(e) && !e.Commit? && !(e.Check? && e.c == c)
    requires c in CreatesAfter(setup, s, e)
    ensures CreateOk(setup, RowsAfter(setup, s, e), CreatesAfter(setup, s, e)[c])
  {
    hide StaleIds, RowFree, LockFree, FreshId, ActiveIn, IsNewestActive, Claimable, Matches, IsRecent;
  }

  // At most one active run.

  lemma CommitKeepsOneActive(setup: Setup, rows: Table, c: Create)
    requires OneActive(rows) && c.phase.Checked? && CreateOk(setup, rows, c) && c.runId !in rows
    ensures OneActive(CommitRows(rows, c))
  {
    var patched := FailAll(rows, c.phase.stale);
    NoNewActive(rows, patched);
    if c.phase.found.None? {
      forall id ensures !ActiveIn(patched, c.tenant, id) {
        assert ActiveIn(rows, c.tenant, id) ==> id in c.phase.stale;
      }
      var after := CommitRows(rows, c);
      forall tenant, a, b | ActiveIn(after, tenant, a) && ActiveIn(after, tenant, b) ensures a == b {
        assert a != c.runId ==> ActiveIn(patched, tenant, a);
        assert b != c.runId ==> ActiveIn(patched, tenant, b);
      }
    }
  }

  lemma OneActiveStep(setup: Setup, s: State, e: Event)
    requires IdsOk(s.rows, s.creates) && CreatesOk(setup, s) && OneActive(s.rows) && Enabled(setup, s, e)
    ensures OneActive(RowsAfter(setup, s, e))
  {
    hide OneActive, CreateOk, CommitRows;
    if e.Commit? {
      CommitKeepsOneActive(setup, s.rows, s.creates[e.c]);
    } else if IsWrite(e) {
      hide RowsAfter;
      WriteStep(setup, s, e);
      NoNewActive(s.rows, RowsAfter(setup, s, e));
    }
  }

  // Claims and entries.

  lemma StartedStep(setup: Setup, s: State, e: Event, id: RunId)
    requires IdsOk(s.rows, s.creates) && Enabled(setup, s, e) && Started(s.rows, id)
    ensures Started(RowsAfter(setup, s, e), id)
  {
    hide Enabled, RowsAfter, IdsOk;
    StepAdvances(setup, s, e);
    assert RowAdvances(s.rows[id], RowsAfter(setup, s, e)[id]);
  }

  /** An invocation is in the claimed stage because it was, or because it has just claimed a queued run. */
  lemma ClaimedStep(setup: Setup, s: State, e: Event, i: nat)
    requires Enabled(setup, s, e) && InStage(Step(setup, s, e), i, Claimed)
    ensures var job := Step(setup, s, e).invocations[i];
            || (InStage(s, i, Claimed) && job == s.invocations[i] && e != Enter(i))
            || (&& e == Claim(i, true, true) && Claimable(s.rows, job.runId, job.tenant)
                && Started(RowsAfter(setup, s, e), job.runId))
  {
    hide RowFree, LockFree, IsNewestActive, FreshId;
  }

  lemma OneClaimEnters(setup: Setup, s: State, i: nat, j: nat)
    requires ClaimsOk(s) && Enabled(setup, s, Enter(i)) && InStage(s, j, Claimed)
    ensures s.invocations[i].runId == s.invocations[j].runId ==> i == j
  {
    assert SameClaim(s, i, j) ==> i == j;
  }

  lemma EntriesStep(setup: Setup, s: State, e: Event)
    requires IdsOk(s.rows, s.creates) && ClaimsOk(s) && Enabled(setup, s, e)
    ensures var after := Step(setup, s, e);
            forall id :: id in after.entered ==> after.entered[id] == 1 && Started(after.rows, id)
  {
    hide IdsOk, RowsAfter, CreatesAfter, InvocationsAfter, Started;
    var after := Step(setup, s, e);
    forall id | id in after.entered ensures after.entered[id] == 1 && Started(after.rows, id) {
      StartedStep(setup, s, e, id);
    }
  }

  lemma ClaimsStep(setup: Setup, s: State, e: Event)
    requires IdsOk(s.rows, s.creates) && ClaimsOk(s) && Enabled(setup, s, e)
    ensures ClaimsOk(Step(setup, s, e))
  {
    hide Enabled, IdsOk, RowsAfter, CreatesAfter, InvocationsAfter;
    var after := Step(setup, s, e);
    EntriesStep(setup, s, e);
    forall i | InStage(after, i, Claimed)
      ensures Started(after.rows, after.invocations[i].runId) && after.invocations[i].runId !in after.entered
    {
      ClaimedStep(setup, s, e, i);
      if InStage(s, i, Claimed) {
        StartedStep(setup, s, e, s.invocations[i].runId);
        if e.Enter? {
          OneClaimEnters(setup, s, e.i, i);
        }
      }
    }
    forall i, j | SameClaim(after, i, j) ensures i == j {
      ClaimedStep(setup, s, e, i);
      ClaimedStep(setup, s, e, j);
      assert InStage(s, i, Claimed) && InStage(s, j, Claimed) ==> SameClaim(s, i, j);
    }
  }

  lemma InvStep(setup: Setup, s: State, e: Event)
    requires Inv(setup, s) && Enabled(setup, s, e)
    ensures Inv(setup, Step(setup, s, e))
  {
    hide Enabled, RowsAfter, CreatesAfter, InvocationsAfter, IdsOk, LocksOk, CreatesOk, OneActive, ClaimsOk;
    IdsStep(setup, s, e);
    LocksStep(setup, s, e);
    CreatesStep(setup, s, e);
    OneActiveStep(setup, s, e);
    ClaimsStep(setup, s, e);
  }
}
