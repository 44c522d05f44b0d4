/** Any number of threads of one process working on the index files (ingestion/indexer.py,
    `_bm25_lock` and the code it guards). A removal's first look for the file, looking a lock up, taking
    it, reading the file and writing it are separate steps; `log` records, in order, the operations that
    have taken effect. */
module Bm25Locking {
  import opened Bm25Index
  import opened Options

  type ThreadId = nat
  type LockId = nat

  datatype Phase =
    | Start
    | SeenFile
    | InMutex
    | Waiting(lock: LockId)
    | Holding(lock: LockId)
    | HasRead(lock: LockId, snapshot: Option<Index>)
    | HasWritten(lock: LockId)
    | Done
    | Failed

  datatype Thread = Thread(op: Operation, phase: Phase)

  datatype Entry = Entry(thread: ThreadId, op: Operation)

  datatype State = State(files: map<string, Index>, locks: map<string, LockId>, mutex: Option<ThreadId>,
                         owners: map<LockId, ThreadId>, threads: map<ThreadId, Thread>, log: seq<Entry>)

  datatype Event =
    | Spawn(t: ThreadId, op: Operation)
    | FindNoFile(t: ThreadId)
    | FindFile(t: ThreadId)
    | EnterMutex(t: ThreadId)
    | LookUpLock(t: ThreadId, newLock: LockId)
    | Acquire(t: ThreadId)
    | FindFileGone(t: ThreadId)
    | Read(t: ThreadId)
    | Write(t: ThreadId)
    | Release(t: ThreadId)
    | Abort(t: ThreadId)

  predicate Guarding(phase: Phase) {
    phase.Holding? || phase.HasRead? || phase.HasWritten?
  }

  predicate Committed(phase: Phase) {
    phase.HasWritten? || phase.Done?
  }

  function Slug(s: State, t: ThreadId): string
    requires t in s.threads
  {
    s.threads[t].op.slug
  }

  /** A removal that has not looked for the file yet. */
  predicate Looking(s: State, t: ThreadId) {
    t in s.threads && s.threads[t].phase == Start && s.threads[t].op.Remove?
  }

  predicate Enabled(s: State, e: Event) {
    match e
    case Spawn(t, _) => t !in s.threads
    case FindNoFile(t) => Looking(s, t) && Slug(s, t) !in s.files
    case FindFile(t) => Looking(s, t) && Slug(s, t) in s.files
    case EnterMutex(t) =>
      && t in s.threads && s.mutex == None
      && s.threads[t].phase == if s.threads[t].op.Remove? then SeenFile else Start
    case LookUpLock(t, newLock) => t in s.threads && s.threads[t].phase == InMutex && newLock !in s.locks.Values
    case Acquire(t) => t in s.threads && s.threads[t].phase.Waiting? && s.threads[t].phase.lock !in s.owners
    case FindFileGone(t) =>
      && t in s.threads && s.threads[t].phase.Holding?
      && s.threads[t].op.Remove? && Slug(s, t) !in s.files
    case Read(t) =>
      && t in s.threads && s.threads[t].phase.Holding?
      && (s.threads[t].op.Remove? ==> Slug(s, t) in s.files)
    case Write(t) => t in s.threads && s.threads[t].phase.HasRead?
    case Release(t) => t in s.threads && s.threads[t].phase.HasWritten?
    case Abort(t) => t in s.threads && (s.threads[t].phase.Holding? || s.threads[t].phase.HasRead?)
  }

  function Move(s: State, t: ThreadId, phase: Phase): State
    requires t in s.threads
  {
    s.(threads := s.threads[t := s.threads[t].(phase := phase)])
  }

  function Log(s: State, t: ThreadId): State
    requires t in s.threads
  {
    s.(log := s.log + [Entry(t, s.threads[t].op)])
  }

  function Step(s: State, e: Event): State
    requires Enabled(s, e)
  {
    match e
    case Spawn(t, op) => s.(threads := s.threads[t := Thread(op, Start)])
    case FindNoFile(t) => Move(Log(s, t), t, Done)
    case FindFile(t) => Move(s, t, SeenFile)
    case EnterMutex(t) => Move(s, t, InMutex).(mutex := Some(t))
    case LookUpLock(t, newLock) =>
      var locks := if Slug(s, t) in s.locks then s.locks else s.locks[Slug(s, t) := newLock];
      Move(s, t, Waiting(locks[Slug(s, t)])).(locks := locks, mutex := None)
    case Acquire(t) =>
      var lock := s.threads[t].phase.lock;
      Move(s, t, Holding(lock)).(owners := s.owners[lock := t])
    case FindFileGone(t) => Move(Log(s, t), t, HasWritten(s.threads[t].phase.lock))
    case Read(t) => Move(s, t, HasRead(s.threads[t].phase.lock, FileOf(s.files, Slug(s, t))))
    case Write(t) =>
      var file := Apply(s.threads[t].op, s.threads[t].phase.snapshot);
      Move(Log(s, t), t, HasWritten(s.threads[t].phase.lock)).(files := SetFile(s.files, Slug(s, t), file))
    case Release(t) => Move(s, t, Done).(owners := s.owners - {s.threads[t].phase.lock})
    case Abort(t) => Move(s, t, Failed).(owners := s.owners - {s.threads[t].phase.lock})
  }

  predicate Run(s: State, es: seq<Event>)
    decreases |es|
  {
    es == [] || (Enabled(s, es[0]) && Run(Step(s, es[0]), es[1..]))
  }

  function After(s: State, es: seq<Event>): State
    requires Run(s, es)
    decreases |es|
  {
    if es == [] then s else After(Step(s, es[0]), es[1..])
  }

  function Begin(files: map<string, Index>): State {
    State(files, map[], None, map[], map[], [])
  }

  // ---------------------------------------------------------------- sequential meaning

  /** A tenant's file after the logged operations have run one after the other. */
  function Replay(base: map<string, Index>, log: seq<Entry>, slug: string): Option<Index>
    decreases |log|
  {
    if log == [] then FileOf(base, slug)
    else
      var before := Replay(base, log[..|log| - 1], slug);
      var op := log[|log| - 1].op;
      if op.slug == slug then Apply(op, before) else before
  }

  lemma ReplaySnoc(base: map<string, Index>, log: seq<Entry>, entry: Entry, slug: string)
    ensures Replay(base, log + [entry], slug)
         == if entry.op.slug == slug then Apply(entry.op, Replay(base, log, slug)) else Replay(base, log, slug)
  {
    assert (log + [entry])[..|log|] == log;
  }

  lemma {:induction false} ReplayAligned(base: map<string, Index>, log: seq<Entry>, slug: string)
    requires forall name :: name in base ==> Aligned(base[name])
    ensures AlignedFile(Replay(base, log, slug))
    decreases |log|
  {
    if log != [] {
      ReplayAligned(base, log[..|log| - 1], slug);
      ApplyKeepsAligned(log[|log| - 1].op, Replay(base, log[..|log| - 1], slug));
    }
  }

  function Occurrences(log: seq<Entry>, t: ThreadId): nat {
    if log == [] then 0 else (if log[0].thread == t then 1 else 0) + Occurrences(log[1..], t)
  }

  lemma {:induction false} OccurrencesSnoc(log: seq<Entry>, entry: Entry, t: ThreadId)
    ensures Occurrences(log + [entry], t) == Occurrences(log, t) + if entry.thread == t then 1 else 0
  {
    if log == [] {
      assert log + [entry] == [entry];
    } else {
      assert (log + [entry])[1..] == log[1..] + [entry];
      OccurrencesSnoc(log[1..], entry, t);
    }
  }

  // ---------------------------------------------------------------- the invariant

  /** One lock for each tenant, and every thread uses its tenant's. */
  ghost predicate LocksOk(s: State) {
    && (forall a, b :: a in s.locks && b in s.locks && s.locks[a] == s.locks[b] ==> a == b)
    && (forall t :: t in s.threads && (s.threads[t].phase.Waiting? || Guarding(s.threads[t].phase)) ==>
          Slug(s, t) in s.locks && s.threads[t].phase.lock == s.locks[Slug(s, t)])
  }

  /** A lock is owned by exactly the thread inside its critical section. */
  ghost predicate OwnersOk(s: State) {
    GuardsOwn(s) && OwnersGuard(s)
  }

  ghost predicate GuardsOwn(s: State) {
    forall t :: t in s.threads && Guarding(s.threads[t].phase) ==>
                  s.threads[t].phase.lock in s.owners && s.owners[s.threads[t].phase.lock] == t
  }

  ghost predicate OwnersGuard(s: State) {
    forall lock :: lock in s.owners ==>
                     && s.owners[lock] in s.threads
                     && Guarding(s.threads[s.owners[lock]].phase)
                     && s.threads[s.owners[lock]].phase.lock == lock
  }

  /** What a thread has read is still what the file holds. */
  ghost predicate SnapshotsFresh(s: State) {
    forall t :: t in s.threads && s.threads[t].phase.HasRead? ==>
                  s.threads[t].phase.snapshot == FileOf(s.files, Slug(s, t))
  }

  ghost predicate FilesReplay(s: State, base: map<string, Index>) {
    forall slug :: FileOf(s.files, slug) == Replay(base, s.log, slug)
  }

  /** The log holds every operation that has taken effect once, and no other. */
  ghost predicate LogOk(s: State) {
    && (forall t :: Occurrences(s.log, t) == if t in s.threads && Committed(s.threads[t].phase) then 1 else 0)
    && (forall i :: 0 <= i < |s.log| ==> s.log[i].thread in s.threads && s.log[i].op == s.threads[s.log[i].thread].op)
  }

  ghost predicate Inv(s: State, base: map<string, Index>) {
    LocksOk(s) && OwnersOk(s) && SnapshotsFresh(s) && FilesReplay(s, base) && LogOk(s)
  }

  lemma LocksStep(s: State, e: Event)
    requires LocksOk(s) && Enabled(s, e)
    ensures LocksOk(Step(s, e))
  {
    hide Apply, SetFile, FileOf;
  }

  lemma GuardsOwnStep(s: State, e: Event)
    requires OwnersOk(s) && Enabled(s, e)
    ensures GuardsOwn(Step(s, e))
  {
    hide Apply, SetFile, FileOf;
  }

  lemma OwnersGuardStep(s: State, e: Event)
    requires OwnersOk(s) && Enabled(s, e)
    ensures OwnersGuard(Step(s, e))
  {
    hide Apply, SetFile, FileOf;
  }

  lemma OwnersStep(s: State, e: Event)
    requires OwnersOk(s) && Enabled(s, e)
    ensures OwnersOk(Step(s, e))
  {
    GuardsOwnStep(s, e);
    OwnersGuardStep(s, e);
  }

  lemma SnapshotsStep(s: State, e: Event)
    requires LocksOk(s) && OwnersOk(s) && SnapshotsFresh(s) && Enabled(s, e)
    ensures SnapshotsFresh(Step(s, e))
  {
  }

  lemma FilesStep(s: State, e: Event, base: map<string, Index>)
    requires SnapshotsFresh(s) && FilesReplay(s, base) && Enabled(s, e)
    ensures FilesReplay(Step(s, e), base)
  {
    if e.Write? {
      WriteReplays(s, e.t, base);
    } else if e.FindNoFile? || e.FindFileGone? {
      NothingToRemove(s, e.t, base);
    } else {
      hide Apply, Replay, FileOf, SetFile;
    }
  }

  lemma WriteReplays(s: State, t: ThreadId, base: map<string, Index>)
    requires SnapshotsFresh(s) && FilesReplay(s, base) && Enabled(s, Write(t))
    ensures FilesReplay(Step(s, Write(t)), base)
  {
    hide Apply, Replay;
    var next := Step(s, Write(t));
    var entry := Entry(t, s.threads[t].op);
    forall slug ensures FileOf(next.files, slug) == Replay(base, next.log, slug) {
      ReplaySnoc(base, s.log, entry, slug);
    }
  }

  /** A removal that finds no file leaves things as removing from nothing does. */
  lemma NothingToRemove(s: State, t: ThreadId, base: map<string, Index>)
    requires FilesReplay(s, base) && t in s.threads && s.threads[t].op.Remove? && Slug(s, t) !in s.files
    ensures forall slug :: FileOf(s.files, slug) == Replay(base, s.log + [Entry(t, s.threads[t].op)], slug)
  {
    hide Replay;
    var entry := Entry(t, s.threads[t].op);
    forall slug ensures FileOf(s.files, slug) == Replay(base, s.log + [entry], slug) {
      ReplaySnoc(base, s.log, entry, slug);
    }
  }

  lemma LogStep(s: State, e: Event)
    requires LogOk(s) && Enabled(s, e)
    ensures LogOk(Step(s, e))
  {
    hide Occurrences, Apply, SetFile, FileOf;
    var next := Step(s, e);
    if next.log != s.log {
      var entry := Entry(e.t, s.threads[e.t].op);
      forall t ensures Occurrences(next.log, t) == Occurrences(s.log, t) + if e.t == t then 1 else 0 {
        OccurrencesSnoc(s.log, entry, t);
      }
    }
  }

  lemma {:induction false} InvRun(s: State, es: seq<Event>, base: map<string, Index>)
    requires Inv(s, base) && Run(s, es)
    ensures Inv(After(s, es), base)
    ensures s.log <= After(s, es).log
    decreases |es|
  {
    if es != [] {
      LocksStep(s, es[0]);
      OwnersStep(s, es[0]);
      SnapshotsStep(s, es[0]);
      FilesStep(s, es[0], base);
      LogStep(s, es[0]);
      InvRun(Step(s, es[0]), es[1..], base);
    }
  }

  lemma {:induction false} OperationsStay(s: State, es: seq<Event>, t: ThreadId)
    requires Run(s, es) && t in s.threads
    ensures t in After(s, es).threads && After(s, es).threads[t].op == s.threads[t].op
    decreases |es|
  {
    if es != [] {
      OperationStays(s, es[0], t);
      hide Enabled, Step;
      OperationsStay(Step(s, es[0]), es[1..], t);
    }
  }

  lemma OperationStays(s: State, e: Event, t: ThreadId)
    requires Enabled(s, e) && t in s.threads
    ensures t in Step(s, e).threads && Step(s, e).threads[t].op == s.threads[t].op
  {
  }

  /** A thread carries the operation it was started with. */
  lemma {:induction false} SpawnedCarries(s: State, es: seq<Event>, t: ThreadId, op: Operation)
    requires Run(s, es) && Spawn(t, op) in es
    ensures t in After(s, es).threads && After(s, es).threads[t].op == op
    decreases |es|
  {
    if es[0] == Spawn(t, op) {
      OperationsStay(Step(s, es[0]), es[1..], t);
    } else {
      hide Enabled, Step;
      assert es == [es[0]] + es[1..];
      SpawnedCarries(Step(s, es[0]), es[1..], t, op);
    }
  }

  /** Whatever the interleaving, the files are what the logged operations produce when they run one at
      a time in the order of the log, and every file keeps texts and payloads aligned. The log holds the
      operation that each finished thread was started with, once, and no operation of a thread that has
      not taken effect: nothing is lost, doubled or made up. */
  lemma Serializable(base: map<string, Index>, es: seq<Event>)
    requires forall name :: name in base ==> Aligned(base[name])
    requires Run(Begin(base), es)
    ensures var s := After(Begin(base), es);
            && (forall slug :: FileOf(s.files, slug) == Replay(base, s.log, slug))
            && (forall slug :: slug in s.files ==> Aligned(s.files[slug]))
            && (forall i :: 0 <= i < |s.log| ==>
                  s.log[i].thread in s.threads && s.log[i].op == s.threads[s.log[i].thread].op)
            && (forall t :: Occurrences(s.log, t) == if t in s.threads && Committed(s.threads[t].phase) then 1 else 0)
            && (forall t, op :: Spawn(t, op) in es ==> t in s.threads && s.threads[t].op == op)
  {
    var s0 := Begin(base);
    InvRun(s0, es, base);
    var s := After(s0, es);
    hide Run, After, Replay, Occurrences;
    forall slug | slug in s.files ensures Aligned(s.files[slug]) {
      ReplayAligned(base, s.log, slug);
    }
    forall t, op | Spawn(t, op) in es ensures t in s.threads && s.threads[t].op == op {
      SpawnedCarries(s0, es, t, op);
    }
  }

  // ---------------------------------------------------------------- nothing lost, nothing revived

  /** What the log makes of the count of one chunk in one tenant's file: updates of the tenant add their
      chunks, and a removal of the document starts again from nothing. */
  function CountOverLog(start: nat, log: seq<Entry>, slug: string, docId: string, chunkIndex: int): nat
    decreases |log|
  {
    if log == [] then start
    else
      var before := CountOverLog(start, log[..|log| - 1], slug, docId, chunkIndex);
      var op := log[|log| - 1].op;
      if op.slug != slug then before
      else if op.Update? then before + Count(op.payloads, docId, chunkIndex)
      else if op.docId == docId then 0 else before
  }

  lemma {:induction false} ReplayCounts(base: map<string, Index>, log: seq<Entry>, slug: string,
                                        docId: string, chunkIndex: int)
    ensures Held(Replay(base, log, slug), docId, chunkIndex)
         == CountOverLog(Held(FileOf(base, slug), docId, chunkIndex), log, slug, docId, chunkIndex)
    decreases |log|
  {
    if log != [] {
      var n := |log| - 1;
      hide Apply, Held, Count;
      ReplayCounts(base, log[..n], slug, docId, chunkIndex);
      CountsAfter(log[n].op, Replay(base, log[..n], slug), docId, chunkIndex);
    }
  }

  /** The log removes document `docId` from the tenant's file at place `k`. */
  predicate RemovesAt(log: seq<Entry>, k: int, slug: string, docId: string) {
    0 <= k < |log| && log[k].op.Remove? && log[k].op.slug == slug && log[k].op.docId == docId
  }

  /** The log adds the chunk to the tenant's file at place `k`. */
  predicate AddsAt(log: seq<Entry>, k: int, slug: string, docId: string, chunkIndex: int) {
    0 <= k < |log| && log[k].op.Update? && log[k].op.slug == slug && Count(log[k].op.payloads, docId, chunkIndex) > 0
  }

  /** An update of the tenant that no removal of the document follows. */
  ghost predicate UpdateStays(log: seq<Entry>, k: int, slug: string, docId: string) {
    && 0 <= k < |log| && log[k].op.Update? && log[k].op.slug == slug
    && forall j :: k < j < |log| ==> !RemovesAt(log, j, slug, docId)
  }

  /** A removal of the document that no update of the chunk follows. */
  ghost predicate RemovalStays(log: seq<Entry>, k: int, slug: string, docId: string, chunkIndex: int) {
    && RemovesAt(log, k, slug, docId)
    && forall j :: k < j < |log| ==> !AddsAt(log, j, slug, docId, chunkIndex)
  }

  /** Counts only grow after the last removal of the document; every update logged since is in. */
  lemma {:induction false} CountGrows(start: nat, log: seq<Entry>, k: nat, slug: string, docId: string, chunkIndex: int)
    requires k <= |log| && forall j :: k <= j < |log| ==> !RemovesAt(log, j, slug, docId)
    ensures CountOverLog(start, log, slug, docId, chunkIndex) >= CountOverLog(start, log[..k], slug, docId, chunkIndex)
    decreases |log|
  {
    var n := |log| - 1;
    if k == |log| {
      assert log[..k] == log;
    } else {
      assert !RemovesAt(log, n, slug, docId);
      assert forall j :: k <= j < n ==> (RemovesAt(log[..n], j, slug, docId) ==> RemovesAt(log, j, slug, docId));
      CountGrows(start, log[..n], k, slug, docId, chunkIndex);
      assert log[..n][..k] == log[..k];
    }
  }

  /** After the last removal of the document, and with no update of the chunk since, nothing is left. */
  lemma {:induction false} CountStaysZero(start: nat, log: seq<Entry>, k: nat, slug: string, docId: string,
                                          chunkIndex: int)
    requires RemovalStays(log, k, slug, docId, chunkIndex)
    ensures CountOverLog(start, log, slug, docId, chunkIndex) == 0
    decreases |log|
  {
    var n := |log| - 1;
    if k < n {
      assert !AddsAt(log, n, slug, docId, chunkIndex);
      assert RemovesAt(log[..n], k, slug, docId);
      assert forall j :: k < j < n ==> (AddsAt(log[..n], j, slug, docId, chunkIndex)
                                    ==> AddsAt(log, j, slug, docId, chunkIndex));
      CountStaysZero(start, log[..n], k, slug, docId, chunkIndex);
    }
  }

  /** Every update that stays is counted in, on top of what was there; a removal that stays leaves none. */
  ghost predicate CountsOwnSteps(start: nat, log: seq<Entry>, slug: string, docId: string, chunkIndex: int,
                                 count: nat)
  {
    && (forall k | UpdateStays(log, k, slug, docId) ::
          count >= CountOverLog(start, log[..k], slug, docId, chunkIndex)
                   + Count(log[k].op.payloads, docId, chunkIndex))
    && (forall k | RemovalStays(log, k, slug, docId, chunkIndex) :: count == 0)
  }

  lemma LogCounts(start: nat, log: seq<Entry>, slug: string, docId: string, chunkIndex: int)
    ensures CountsOwnSteps(start, log, slug, docId, chunkIndex, CountOverLog(start, log, slug, docId, chunkIndex))
  {
    forall k | UpdateStays(log, k, slug, docId)
      ensures CountOverLog(start, log, slug, docId, chunkIndex)
              >= CountOverLog(start, log[..k], slug, docId, chunkIndex) + Count(log[k].op.payloads, docId, chunkIndex)
    {
      CountGrows(start, log, k + 1, slug, docId, chunkIndex);
      assert log[..k + 1][..k] == log[..k];
    }
    forall k | RemovalStays(log, k, slug, docId, chunkIndex)
      ensures CountOverLog(start, log, slug, docId, chunkIndex) == 0
    {
      CountStaysZero(start, log, k, slug, docId, chunkIndex);
    }
  }

  /** In every interleaving, each file holds each chunk as often as the log counts it. So an update that
      has taken effect is there with all its chunks, on top of all there was, as long as no removal of
      the document follows it in the log; and a removed document stays away until an update follows. */
  lemma NothingLostNothingRevived(base: map<string, Index>, es: seq<Event>, slug: string, docId: string,
                                  chunkIndex: int)
    requires Run(Begin(base), es)
    ensures var s := After(Begin(base), es);
            var start, held := Held(FileOf(base, slug), docId, chunkIndex),
                               Held(FileOf(s.files, slug), docId, chunkIndex);
            && held == CountOverLog(start, s.log, slug, docId, chunkIndex)
            && CountsOwnSteps(start, s.log, slug, docId, chunkIndex, held)
  {
    InvRun(Begin(base), es, base);
    var log := After(Begin(base), es).log;
    hide Run, After, Replay, Held, FileOf, Count, CountsOwnSteps, CountOverLog;
    hide LocksOk, OwnersOk, LogOk, SnapshotsFresh;
    ReplayCounts(base, log, slug, docId, chunkIndex);
    LogCounts(Held(FileOf(base, slug), docId, chunkIndex), log, slug, docId, chunkIndex);
  }

  /** The serial order respects real time: what has taken effect before a thread starts stays before
      that thread's operation. */
  lemma SerialOrderIsRealTime(base: map<string, Index>, before: State, t: ThreadId, op: Operation, es: seq<Event>)
    requires Inv(before, base) && Enabled(before, Spawn(t, op)) && Run(Step(before, Spawn(t, op)), es)
    ensures var s := After(Step(before, Spawn(t, op)), es);
            && before.log <= s.log
            && Occurrences(before.log, t) == 0
  {
    var started := Step(before, Spawn(t, op));
    LocksStep(before, Spawn(t, op));
    OwnersStep(before, Spawn(t, op));
    SnapshotsStep(before, Spawn(t, op));
    FilesStep(before, Spawn(t, op), base);
    LogStep(before, Spawn(t, op));
    InvRun(started, es, base);
  }

  /** Two threads are never inside the critical section of the same tenant. */
  lemma MutualExclusion(s: State, base: map<string, Index>, a: ThreadId, b: ThreadId)
    requires Inv(s, base) && a in s.threads && b in s.threads
    requires Guarding(s.threads[a].phase) && Guarding(s.threads[b].phase) && Slug(s, a) == Slug(s, b)
    ensures a == b
  {
  }
}
