/** Which step of an evaluation job's life changes its status (eval/auto_eval.py), and what a completed run
    has been through. Everything is said in the columns of the table. */
module EvalJobLaws {
  import opened Options
  import opened EvalJobs
  import opened EvalJobRuns
  import opened EvalJobGuarantees

  /** The statement of invocation `e.i` takes effect on its own row. */
  predicate Writes(s: State, e: Event, id: RunId) {
    && (e.Claim? || e.Complete? || e.SetFailed?) && e.committed
    && e.i in s.invocations && s.invocations[e.i].runId == id
    && id in s.rows && s.invocations[e.i].tenant == s.rows[id].tenant
  }

  /** The committed creation finds the run active and too old. */
  predicate Outlives(setup: Setup, s: State, e: Event, id: RunId) {
    && e.Commit? && e.c in s.creates && id in s.rows
    && s.rows[id].tenant == s.creates[e.c].tenant
    && (s.rows[id].status == Queued || s.rows[id].status == Running)
    && s.rows[id].createdAt < s.creates[e.c].begun - setup.staleTimeout
  }

  /** Which step brings a run to which status: for every status, both directions. */
  lemma StatusLaw(setup: Setup, s: State, e: Event, id: RunId)
    requires Inv(setup, s) && Enabled(setup, s, e) && id in s.rows
    ensures var before, rows := s.rows[id], Step(setup, s, e).rows;
            && id in rows && rows[id].tenant == before.tenant && rows[id].createdAt == before.createdAt
            && (before.status != Running ==>
                  (rows[id].status == Running <==> e.Claim? && Writes(s, e, id) && before.status == Queued))
            && (before.status != Completed ==> (rows[id].status == Completed <==> e.Complete? && Writes(s, e, id)))
            && (before.status != Failed ==>
                  (rows[id].status == Failed <==> (e.SetFailed? && Writes(s, e, id)) || Outlives(setup, s, e, id)))
            && (before.status != Queued ==> rows[id].status != Queued)
  {
    assert e.Commit? ==> s.creates[e.c].runId !in s.rows;
    hide IdsOk, LocksOk, OneActive, ClaimsOk, CreatesAfter, InvocationsAfter;
    if e.Commit? {
      assert CreateOk(setup, s.rows, s.creates[e.c]);
      CommittedRow(setup, s, e, id);
    } else {
      hide CreateOk;
    }
  }

  lemma CommittedRow(setup: Setup, s: State, e: Event, id: RunId)
    requires Enabled(setup, s, e) && e.Commit? && id in s.rows && s.creates[e.c].runId !in s.rows
    requires CreateOk(setup, s.rows, s.creates[e.c])
    ensures var before, rows := s.rows[id], Step(setup, s, e).rows;
            id in rows && rows[id] == if Outlives(setup, s, e, id) then before.(status := Failed) else before
  {
    hide CreatesAfter, InvocationsAfter;
  }

  /** A run comes into the table only by the commit of its creation, queued, and only if the tenant's active
      runs were all too old. */
  lemma NewRowLaw(setup: Setup, s: State, e: Event, id: RunId)
    requires Inv(setup, s) && Enabled(setup, s, e) && id !in s.rows
    ensures id in Step(setup, s, e).rows
       <==> e.Commit? && s.creates[e.c].runId == id && s.creates[e.c].phase.found.None?
    ensures id in Step(setup, s, e).rows ==>
              && Step(setup, s, e).rows[id] == EvalRun(s.creates[e.c].tenant, Queued, s.creates[e.c].begun)
              && forall other :: other in s.rows && s.rows[other].tenant == s.creates[e.c].tenant ==>
                                   Outlives(setup, s, e, other) || HasEnded(s, other)
  {
    hide IdsOk, LocksOk, OneActive, ClaimsOk, CreatesAfter, InvocationsAfter;
    if e.Commit? {
      var job := s.creates[e.c];
      assert CreateOk(setup, s.rows, job);
      forall other | other in s.rows && s.rows[other].tenant == job.tenant && job.phase.found.None?
        ensures Outlives(setup, s, e, other) || HasEnded(s, other)
      {
        assert ActiveIn(s.rows, job.tenant, other) ==> other in job.phase.stale;
      }
    }
  }

  predicate HasEnded(s: State, id: RunId) {
    id in s.rows && (s.rows[id].status == Completed || s.rows[id].status == Failed)
  }

  /** An evaluation under way has been entered, and so has a completed one. */
  ghost predicate EnteredOk(s: State) {
    && (forall i :: InStage(s, i, Evaluating) ==> s.invocations[i].runId in s.entered)
    && (forall id :: id in s.rows && s.rows[id].status == Completed ==> id in s.entered)
  }

  lemma EnteredStep(setup: Setup, s: State, e: Event)
    requires Inv(setup, s) && Enabled(setup, s, e) && EnteredOk(s)
    ensures EnteredOk(Step(setup, s, e))
  {
    var next := Step(setup, s, e);
    forall id | id in next.rows && next.rows[id].status == Completed ensures id in next.entered {
      hide Inv;
      if id in s.rows {
        StatusLaw(setup, s, e, id);
      } else {
        NewRowLaw(setup, s, e, id);
      }
    }
    forall i | InStage(next, i, Evaluating) ensures next.invocations[i].runId in next.entered {
      StageKept(setup, s, e, i);
    }
  }

  lemma StageKept(setup: Setup, s: State, e: Event, i: nat)
    requires Enabled(setup, s, e) && InStage(Step(setup, s, e), i, Evaluating)
    ensures i in s.invocations && Step(setup, s, e).invocations[i].runId == s.invocations[i].runId
    ensures InStage(s, i, Evaluating) || e == Enter(i)
  {
    hide RowsAfter, CreatesAfter, RowFree, LockFree, Claimable, Matches;
  }

  lemma {:induction false} EnteredRun(setup: Setup, s: State, es: seq<Event>)
    requires Inv(setup, s) && EnteredOk(s) && Run(setup, s, es)
    ensures EnteredOk(After(setup, s, es))
    decreases |es|
  {
    if es != [] {
      hide Inv, Enabled, Step, EnteredOk;
      EnteredStep(setup, s, es[0]);
      InvStep(setup, s, es[0]);
      EnteredRun(setup, Step(setup, s, es[0]), es[1..]);
    }
  }

  /** A completed run has been evaluated exactly once, whatever creations, invocations and crashes there
      were. */
  lemma CompletedMeansEvaluatedOnce(setup: Setup, start: Time, es: seq<Event>, id: RunId)
    requires Run(setup, Empty(start), es)
    requires id in After(setup, Empty(start), es).rows && After(setup, Empty(start), es).rows[id].status == Completed
    ensures After(setup, Empty(start), es).entered[id] == 1
  {
    EmptyInv(setup, start);
    EnteredRun(setup, Empty(start), es);
    EnteredAtMostOnce(setup, start, es, id);
  }
}
