/** What holds of evaluation jobs in every interleaving (eval/auto_eval.py): one active run a tenant, one
    evaluation a run, and no way back from an ended run. */
module EvalJobGuarantees {
  import opened Options
  import opened EvalJobs
  import opened EvalJobRuns

  lemma {:induction false} InvRun(setup: Setup, s: State, es: seq<Event>)
    requires Inv(setup, s) && Run(setup, s, es)
    ensures Inv(setup, After(setup, s, es))
    decreases |es|
  {
    if es != [] {
      hide Inv, Enabled;
      InvStep(setup, s, es[0]);
      InvRun(setup, Step(setup, s, es[0]), es[1..]);
    }
  }

  lemma EmptyInv(setup: Setup, now: Time)
    ensures Inv(setup, Empty(now))
  {
  }

  /** However creations, duplicate invocations and failures interleave, no tenant ever has two
      queued or running evaluations. */
  lemma OneActivePerTenant(setup: Setup, start: Time, es: seq<Event>)
    requires Run(setup, Empty(start), es)
    ensures OneActive(After(setup, Empty(start), es).rows)
  {
    hide Run, After, IdsOk, LocksOk, CreatesOk, ClaimsOk;
    EmptyInv(setup, start);
    InvRun(setup, Empty(start), es);
  }

  /** The evaluation of a run is entered at most once, whatever the number of invocations of its id. */
  lemma EnteredAtMostOnce(setup: Setup, start: Time, es: seq<Event>, id: RunId)
    requires Run(setup, Empty(start), es)
    ensures After(setup, Empty(start), es).entered[id] <= 1
  {
    hide Run, After, IdsOk, LocksOk, CreatesOk, OneActive, Started;
    EmptyInv(setup, start);
    InvRun(setup, Empty(start), es);
  }

  lemma AdvancesTransitive(a: Table, b: Table, c: Table)
    requires Advances(a, b) && Advances(b, c)
    ensures Advances(a, c)
  {
    forall id | id in a ensures id in c && RowAdvances(a[id], c[id]) {
      assert RowAdvances(a[id], b[id]) && RowAdvances(b[id], c[id]);
    }
  }

  lemma {:induction false} AdvanceRun(setup: Setup, s: State, es: seq<Event>)
    requires Inv(setup, s) && Run(setup, s, es)
    ensures Advances(s.rows, After(setup, s, es).rows)
    decreases |es|
  {
    if es != [] {
      hide Enabled, RowsAfter, CreatesAfter, InvocationsAfter, IdsOk, LocksOk, CreatesOk, OneActive, ClaimsOk, Advances;
      var next := Step(setup, s, es[0]);
      StepAdvances(setup, s, es[0]);
      InvStep(setup, s, es[0]);
      AdvanceRun(setup, next, es[1..]);
      AdvancesTransitive(s.rows, next.rows, After(setup, s, es).rows);
    }
  }

  /** From any reachable state on: a run that has left the queued and running states never returns to
      them, a running one is never queued again, and no row loses its tenant or age or goes away. */
  lemma EndedNeverReturns(setup: Setup, s: State, es: seq<Event>, id: RunId)
    requires Inv(setup, s) && Run(setup, s, es) && id in s.rows
    ensures id in After(setup, s, es).rows
    ensures var before, after := s.rows[id], After(setup, s, es).rows[id];
            && (Active(after) ==> Active(before))
            && (after.status == Queued ==> before.status == Queued)
            && after.tenant == before.tenant && after.createdAt == before.createdAt
  {
    hide Inv, Run, After;
    AdvanceRun(setup, s, es);
    assert RowAdvances(s.rows[id], After(setup, s, es).rows[id]);
  }

  /** What `create_eval_job` promises when it returns an id: that run is queued, and every other run
      of the tenant has ended. */
  lemma CreatedRunIsTheActiveOne(setup: Setup, start: Time, es: seq<Event>, c: nat, other: RunId)
    requires Run(setup, Empty(start), es)
    requires var s := After(setup, Empty(start), es);
             Enabled(setup, s, Commit(c)) && s.creates[c].phase.found.None?
    ensures var s := After(setup, Empty(start), es);
            var job, rows := s.creates[c], Step(setup, s, Commit(c)).rows;
            && job.runId in rows && rows[job.runId] == EvalRun(job.tenant, Queued, job.begun)
            && (ActiveIn(rows, job.tenant, other) ==> other == job.runId)
  {
    var s := After(setup, Empty(start), es);
    EmptyInv(setup, start);
    InvRun(setup, Empty(start), es);
    InvStep(setup, s, Commit(c));
    hide Run, After, LocksOk, CreatesOk, ClaimsOk, Started, RowsAfter, CreatesAfter, InvocationsAfter;
    var rows := Step(setup, s, Commit(c)).rows;
    CommitInserts(setup, s, c);
    assert ActiveIn(rows, s.creates[c].tenant, s.creates[c].runId);
  }

  lemma CommitInserts(setup: Setup, s: State, c: nat)
    requires Enabled(setup, s, Commit(c)) && s.creates[c].phase.found.None?
    ensures var job, rows := s.creates[c], Step(setup, s, Commit(c)).rows;
            job.runId in rows && rows[job.runId] == EvalRun(job.tenant, Queued, job.begun)
  {
  }

  /** A creation is refused only because of a run of the same tenant that was created at most the
      stale timeout before the creation began; when the creation looked, it was the tenant's only
      active run. A crashed evaluator blocks its tenant no longer than that. */
  lemma RefusedOnlyByRecentRun(setup: Setup, start: Time, es: seq<Event>, c: nat)
    requires Run(setup, Empty(start), es)
    ensures var s := After(setup, Empty(start), es);
            && (c in s.creates && s.creates[c].phase.Checked? && s.creates[c].phase.found.Some? ==>
                  IsRecent(s.rows, s.creates[c].tenant, s.creates[c].phase.found.value, Cutoff(setup, s.creates[c])))
            && (forall newest, id ::
                  Enabled(setup, s, Check(c, Some(newest))) && ActiveIn(s.rows, s.creates[c].tenant, id) ==>
                    id == newest)
  {
    var s := After(setup, Empty(start), es);
    EmptyInv(setup, start);
    InvRun(setup, Empty(start), es);
    hide Run, After, LocksOk, IdsOk, ClaimsOk, OneActive;
    forall newest, id | Enabled(setup, s, Check(c, Some(newest))) && ActiveIn(s.rows, s.creates[c].tenant, id)
      ensures id == newest
    {
      OnlyOneFound(s.rows, s.creates[c].phase.stale, s.creates[c].tenant, newest, id);
    }
  }

  lemma OnlyOneFound(rows: Table, stale: set<RunId>, tenant: TenantId, newest: RunId, id: RunId)
    requires OneActive(rows) && ActiveIn(rows, tenant, id)
    requires IsNewestActive(FailAll(rows, stale), tenant, Some(newest))
    ensures id == newest
  {
    assert ActiveIn(rows, tenant, newest);
  }

  lemma ClaimStarts(setup: Setup, s: State, i: nat)
    requires Enabled(setup, s, Claim(i, true, true))
    requires Matches(s.rows, s.invocations[i].runId, s.invocations[i].tenant)
    ensures Started(Step(setup, s, Claim(i, true, true)).rows, s.invocations[i].runId)
  {
  }

  lemma TurnedAway(setup: Setup, s: State, j: nat)
    requires Enabled(setup, s, Claim(j, true, true)) && Started(s.rows, s.invocations[j].runId)
    ensures var end := Step(setup, s, Claim(j, true, true));
            end.rows == s.rows && end.entered == s.entered && j !in end.invocations
  {
  }

  lemma StaysStarted(setup: Setup, s: State, es: seq<Event>, id: RunId)
    requires Inv(setup, s) && Run(setup, s, es) && Started(s.rows, id)
    ensures Started(After(setup, s, es).rows, id)
  {
    hide Inv, Run, After;
    AdvanceRun(setup, s, es);
    assert RowAdvances(s.rows[id], After(setup, s, es).rows[id]);
  }

  /** An invocation that finds its run queued claims it, and any other invocation of the id from then
      on, in any interleaving, is turned away without evaluating. */
  lemma ClaimShutsOthersOut(setup: Setup, s: State, i: nat, es: seq<Event>, j: nat)
    requires Inv(setup, s) && Enabled(setup, s, Claim(i, true, true))
    requires Run(setup, Step(setup, s, Claim(i, true, true)), es)
    requires Matches(s.rows, s.invocations[i].runId, s.invocations[i].tenant)
    requires var later := After(setup, Step(setup, s, Claim(i, true, true)), es);
             Enabled(setup, later, Claim(j, true, true)) && later.invocations[j].runId == s.invocations[i].runId
    ensures var later := After(setup, Step(setup, s, Claim(i, true, true)), es);
            var end := Step(setup, later, Claim(j, true, true));
            end.rows == later.rows && end.entered == later.entered && j !in end.invocations
  {
    hide Inv, Run, After, RowsAfter, CreatesAfter, InvocationsAfter, Started;
    var claim := Claim(i, true, true);
    InvStep(setup, s, claim);
    ClaimStarts(setup, s, i);
    StaysStarted(setup, Step(setup, s, claim), es, s.invocations[i].runId);
    TurnedAway(setup, After(setup, Step(setup, s, claim), es), j);
  }
}
