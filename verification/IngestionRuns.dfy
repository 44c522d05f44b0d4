/** The queue and the index writer together (ingestion/worker.py, `_worker_loop` and `_process_job`):
    an attempt to index a document starts only with a picked job, and on that job's document. */
module IngestionRuns {
  import Queue = JobQueue
  import Jobs = QueueRuns
  import Writer = IndexWriter

  /** `picked` counts the picks of a job whose attempt has not started; `starts` are the jobs of the
      attempts that have, in order. */
  datatype State = State(jobs: Jobs.State, stores: Writer.State,
                         picked: multiset<Queue.JobId>, starts: seq<Queue.JobId>)

  /** A step of the queue, the start of a picked job's attempt, or a later step of an attempt. */
  datatype Event =
    | OnQueue(e: Jobs.Event)
    | StartJob(job: Queue.JobId, a: Writer.AttemptId, texts: seq<string>)
    | OnStores(step: Writer.Event)

  datatype Setup = Setup(cfg: Queue.Config, writer: Writer.Setup) {
    ghost predicate Valid() {
      cfg.Valid() && writer.Injective()
    }
  }

  function DocumentOf(s: State, job: Queue.JobId): Writer.DocId
    requires job in s.jobs.rows
  {
    s.jobs.rows[job].details.documentId
  }

  ghost predicate Enabled(setup: Setup, s: State, e: Event) {
    match e
    case OnQueue(event) => Jobs.Enabled(s.jobs, event)
    case StartJob(job, a, texts) =>
      job in s.picked && job in s.jobs.rows
      && Writer.Enabled(setup.writer, s.stores, Writer.Start(a, DocumentOf(s, job), texts))
    case OnStores(event) => !event.Start? && Writer.Enabled(setup.writer, s.stores, event)
  }

  ghost function Step(setup: Setup, s: State, e: Event): State
    requires Enabled(setup, s, e)
  {
    match e
    case OnQueue(event) =>
      s.(jobs := Jobs.Step(setup.cfg, s.jobs, event),
         picked := if event.Pick? then s.picked + multiset{event.id} else s.picked)
    case StartJob(job, a, texts) =>
      s.(stores := Writer.Step(setup.writer, s.stores, Writer.Start(a, DocumentOf(s, job), texts)),
         picked := s.picked - multiset{job}, starts := s.starts + [job])
    case OnStores(event) => s.(stores := Writer.Step(setup.writer, s.stores, event))
  }

  ghost predicate Run(setup: Setup, s: State, es: seq<Event>)
    decreases |es|
  {
    es == [] || (Enabled(setup, s, es[0]) && Run(setup, Step(setup, s, es[0]), es[1..]))
  }

  ghost function After(setup: Setup, s: State, es: seq<Event>): State
    requires Run(setup, s, es)
    decreases |es|
  {
    if es == [] then s else After(setup, Step(setup, s, es[0]), es[1..])
  }

  function Empty(now: Queue.Time): State {
    State(Jobs.Empty(now), Writer.Empty(), multiset{}, [])
  }

  // ---------------------------------------------------------------- invariant

  /** Every attempt of a job is a pick of it. */
  ghost predicate PicksOk(s: State) {
    forall job :: s.picked[job] + multiset(s.starts)[job] <= Jobs.Attempts(s.jobs, job)
  }

  /** The jobs in the table that are about document `d`. */
  function JobsOf(s: State, d: Writer.DocId): set<Queue.JobId> {
    set job | job in s.jobs.rows && DocumentOf(s, job) == d
  }

  /** How many attempts have started for one of the `jobs`. */
  function StartsFor(starts: seq<Queue.JobId>, jobs: set<Queue.JobId>): nat {
    if starts == [] then 0
    else
      var n := |starts| - 1;
      StartsFor(starts[..n], jobs) + if starts[n] in jobs then 1 else 0
  }

  /** Every attempt on a document has started for one of its jobs. */
  ghost predicate StartsOk(s: State) {
    forall d :: Writer.Started(s.stores, d) <= StartsFor(s.starts, JobsOf(s, d))
  }

  ghost predicate Inv(setup: Setup, s: State) {
    Jobs.Inv(s.jobs, setup.cfg) && Writer.Inv(setup.writer, s.stores) && PicksOk(s) && StartsOk(s)
  }

  lemma PicksStep(setup: Setup, s: State, e: Event)
    requires PicksOk(s) && Enabled(setup, s, e)
    ensures PicksOk(Step(setup, s, e))
  {
    var after := Step(setup, s, e);
    forall job ensures after.picked[job] + multiset(after.starts)[job] <= Jobs.Attempts(after.jobs, job) {
      if e.OnQueue? {
        Jobs.AttemptsStep(setup.cfg, s.jobs, e.e, job);
      }
    }
  }

  lemma {:induction false} MoreJobs(starts: seq<Queue.JobId>, jobs: set<Queue.JobId>, more: set<Queue.JobId>)
    requires jobs <= more
    ensures StartsFor(starts, jobs) <= StartsFor(starts, more)
  {
    if starts != [] {
      MoreJobs(starts[..|starts| - 1], jobs, more);
    }
  }

  lemma JobsStay(setup: Setup, s: State, e: Event, d: Writer.DocId)
    requires Enabled(setup, s, e)
    ensures JobsOf(s, d) <= JobsOf(Step(setup, s, e), d)
  {
    hide Jobs.Enabled, Jobs.Step, Writer.Enabled, Writer.Step;
    forall job | job in JobsOf(s, d) ensures job in JobsOf(Step(setup, s, e), d) {
      if e.OnQueue? {
        Jobs.DetailsStay(setup.cfg, s.jobs, e.e, job);
      }
    }
  }

  lemma StartsStep(setup: Setup, s: State, e: Event)
    requires StartsOk(s) && Enabled(setup, s, e)
    ensures StartsOk(Step(setup, s, e))
  {
    var after := Step(setup, s, e);
    forall d ensures Writer.Started(after.stores, d) <= StartsFor(after.starts, JobsOf(after, d)) {
      JobsStay(setup, s, e, d);
      MoreJobs(s.starts, JobsOf(s, d), JobsOf(after, d));
      if e.StartJob? {
        assert after.starts[..|s.starts|] == s.starts;
      }
    }
  }

  lemma InvStep(setup: Setup, s: State, e: Event)
    requires setup.Valid() && Inv(setup, s) && Enabled(setup, s, e)
    ensures Inv(setup, Step(setup, s, e))
  {
    hide Jobs.Inv, Writer.Inv, PicksOk, StartsOk;
    PicksStep(setup, s, e);
    StartsStep(setup, s, e);
    match e
    case OnQueue(event) => Jobs.InvStep(setup.cfg, s.jobs, event);
    case StartJob(job, a, texts) =>
      Writer.InvStep(setup.writer, s.stores, Writer.Start(a, DocumentOf(s, job), texts));
    case OnStores(event) => Writer.InvStep(setup.writer, s.stores, event);
  }

  lemma {:induction false} InvRun(setup: Setup, s: State, es: seq<Event>)
    requires setup.Valid() && Inv(setup, s) && Run(setup, s, es)
    ensures Inv(setup, After(setup, s, es))
    decreases |es|
  {
    if es != [] {
      hide Inv, Enabled, Step;
      InvStep(setup, s, es[0]);
      InvRun(setup, Step(setup, s, es[0]), es[1..]);
    }
  }

  // ---------------------------------------------------------------- bounded copies

  lemma {:induction false} OneJobLess(starts: seq<Queue.JobId>, jobs: set<Queue.JobId>, job: Queue.JobId)
    requires job in jobs
    ensures StartsFor(starts, jobs) == StartsFor(starts, jobs - {job}) + multiset(starts)[job]
  {
    if starts != [] {
      var n := |starts| - 1;
      OneJobLess(starts[..n], jobs, job);
      assert starts == starts[..n] + [starts[n]];
    }
  }

  lemma {:induction false} NoJobs(starts: seq<Queue.JobId>)
    ensures StartsFor(starts, {}) == 0
  {
    if starts != [] {
      NoJobs(starts[..|starts| - 1]);
    }
  }

  lemma {:induction false} StartsBound(starts: seq<Queue.JobId>, jobs: set<Queue.JobId>, limit: nat)
    requires forall job :: multiset(starts)[job] <= limit
    ensures StartsFor(starts, jobs) <= limit * |jobs|
    decreases |jobs|
  {
    if jobs == {} {
      NoJobs(starts);
    } else {
      var job :| job in jobs;
      OneJobLess(starts, jobs, job);
      StartsBound(starts, jobs - {job}, limit);
      assert limit * |jobs| == limit * |jobs - {job}| + limit;
    }
  }

  /** However workers, recoveries, crashes and attempts interleave, a chunk has at most `max_attempts`
      BM25 entries for each job of its document, and at most one point. */
  lemma CopiesWithinMaxAttempts(setup: Setup, now: Queue.Time, es: seq<Event>, d: Writer.DocId, i: nat)
    requires setup.Valid() && Run(setup, Empty(now), es)
    ensures var s := After(setup, Empty(now), es);
            && Writer.Copies(s.stores, d, i) <= setup.cfg.maxJobAttempts * |JobsOf(s, d)|
            && forall p, q :: Writer.PointOf(s.stores, p, d, i) && Writer.PointOf(s.stores, q, d, i) ==> p == q
  {
    Writer.InvEmpty(setup.writer);
    InvRun(setup, Empty(now), es);
    var s := After(setup, Empty(now), es);
    hide Run, After;
    Writer.CopiesBound(setup.writer, s.stores, d, i);
    forall job ensures multiset(s.starts)[job] <= setup.cfg.maxJobAttempts {
      AttemptsBound(setup, s, job);
      assert s.picked[job] + multiset(s.starts)[job] <= Jobs.Attempts(s.jobs, job);
    }
    StartsBound(s.starts, JobsOf(s, d), setup.cfg.maxJobAttempts);
  }

  lemma AttemptsBound(setup: Setup, s: State, job: Queue.JobId)
    requires Jobs.Inv(s.jobs, setup.cfg)
    ensures Jobs.Attempts(s.jobs, job) <= setup.cfg.maxJobAttempts
  {
    assert job in s.jobs.rows ==> Jobs.RowOk(s.jobs.rows[job], s.jobs.now, setup.cfg);
  }
}
