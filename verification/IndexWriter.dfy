/** Attempts to index documents (ingestion/indexer.py `ingest`, ingestion/worker.py `_process_job`)
    over one tenant's vector collection, BM25 index and document table. An attempt may crash between
    any two stores, and attempts on the same document may overlap. */
module IndexWriter {
  import opened Bm25Index
  import opened Options

  type DocId = string
  type AttemptId = nat

  const BATCH := 100

  datatype DocStatus = Unready | Ready | Errored

  datatype Point = Point(docId: DocId, chunkIndex: nat, text: string)

  /** The tenant, how many chunks each document has, and the point ids. Chunking is deterministic, so every
      attempt on a document produces the same chunk indexes (the texts may differ: they are enriched
      by a language model); ids of different chunks are taken to be different. */
  datatype Setup = Setup(slug: string, chunkCount: DocId -> nat, pointId: (DocId, nat) -> int) {
    ghost predicate Injective() {
      forall d1, i1, d2, i2 :: pointId(d1, i1) == pointId(d2, i2) ==> d1 == d2 && i1 == i2
    }
  }

  datatype Phase =
    | Upserting(next: nat)
    | Upserted
    | Appended
    | Ended
    | Skipped

  datatype Attempt = Attempt(docId: DocId, texts: seq<string>, phase: Phase)

  /** `file` is the tenant's BM25 file. */
  datatype State = State(points: map<int, Point>, file: Option<Index>, status: map<DocId, DocStatus>,
                         attempts: map<AttemptId, Attempt>, started: map<DocId, nat>)

  datatype Event =
    | Start(a: AttemptId, docId: DocId, texts: seq<string>)
    | UpsertBatch(a: AttemptId)
    | Append(a: AttemptId)
    | MarkReady(a: AttemptId)
    | LoseStatus(a: AttemptId)
    | Die(a: AttemptId)
    | MarkError(docId: DocId)

  function Status(s: State, d: DocId): DocStatus {
    if d in s.status then s.status[d] else Unready
  }

  function Started(s: State, d: DocId): nat {
    if d in s.started then s.started[d] else 0
  }

  predicate Enabled(setup: Setup, s: State, e: Event) {
    match e
    case Start(a, d, texts) => a !in s.attempts && |texts| == setup.chunkCount(d)
    case UpsertBatch(a) => a in s.attempts && s.attempts[a].phase.Upserting?
    case Append(a) => a in s.attempts && s.attempts[a].phase.Upserted?
    case MarkReady(a) => a in s.attempts && s.attempts[a].phase.Appended?
    case LoseStatus(a) => a in s.attempts && s.attempts[a].phase.Appended?
    case Die(a) => a in s.attempts
    case MarkError(_) => true
  }

  function Min(a: nat, b: nat): nat {
    if a <= b then a else b
  }

  /** The points of one `client.upsert` call. */
  function Batch(setup: Setup, attempt: Attempt, lo: nat, hi: nat): map<int, Point>
    requires lo <= hi <= |attempt.texts|
    decreases hi
  {
    if lo == hi then map[]
    else
      var last: nat := hi - 1;
      Batch(setup, attempt, lo, last)[setup.pointId(attempt.docId, last) :=
                                          Point(attempt.docId, last, attempt.texts[last])]
  }

  function EntriesOf(attempt: Attempt): seq<Payload> {
    seq(|attempt.texts|, i requires 0 <= i < |attempt.texts| =>
        Payload(attempt.docId, i, attempt.texts[i], "", 0, 0))
  }

  function SetPhase(s: State, a: AttemptId, phase: Phase): State
    requires a in s.attempts
  {
    s.(attempts := s.attempts[a := s.attempts[a].(phase := phase)])
  }

  /** A document without chunks ends its attempt at once, and stays as it is. */
  function FirstPhase(s: State, d: DocId, texts: seq<string>): Phase {
    if Status(s, d).Ready? then Skipped else if texts == [] then Ended else Upserting(0)
  }

  function Step(setup: Setup, s: State, e: Event): State
    requires Enabled(setup, s, e)
  {
    match e
    case Start(a, d, texts) =>
      s.(attempts := s.attempts[a := Attempt(d, texts, FirstPhase(s, d, texts))],
         started := s.started[d := Started(s, d) + 1])
    case UpsertBatch(a) =>
      var attempt := s.attempts[a];
      var lo := Min(attempt.phase.next, |attempt.texts|);
      var hi := Min(lo + BATCH, |attempt.texts|);
      SetPhase(s, a, if hi == |attempt.texts| then Upserted else Upserting(hi))
        .(points := s.points + Batch(setup, attempt, lo, hi))
    case Append(a) =>
      SetPhase(s, a, Appended).(file := Apply(Update(setup.slug, EntriesOf(s.attempts[a])), s.file))
    case MarkReady(a) => SetPhase(s, a, Ended).(status := s.status[s.attempts[a].docId := Ready])
    case LoseStatus(a) => SetPhase(s, a, Ended)
    case Die(a) => SetPhase(s, a, Ended)
    case MarkError(d) => s.(status := s.status[d := Errored])
  }

  predicate Run(setup: Setup, s: State, es: seq<Event>)
    decreases |es|
  {
    es == [] || (Enabled(setup, s, es[0]) && Run(setup, Step(setup, s, es[0]), es[1..]))
  }

  function After(setup: Setup, s: State, es: seq<Event>): State
    requires Run(setup, s, es)
    decreases |es|
  {
    if es == [] then s else After(setup, Step(setup, s, es[0]), es[1..])
  }

  function Empty(): State {
    State(map[], None, map[], map[], map[])
  }

  // ---------------------------------------------------------------- key sets

  predicate HasPoint(setup: Setup, s: State, d: DocId, i: nat) {
    var id := setup.pointId(d, i);
    id in s.points && s.points[id].docId == d && s.points[id].chunkIndex == i
  }

  /** What the collection holds of chunk `i` of `d`, text included, is the same in both states. */
  predicate SamePoint(setup: Setup, s: State, t: State, d: DocId, i: nat) {
    && (HasPoint(setup, s, d, i) <==> HasPoint(setup, t, d, i))
    && (HasPoint(setup, s, d, i) ==> t.points[setup.pointId(d, i)] == s.points[setup.pointId(d, i)])
  }

  /** Every point sits at the id of its own chunk, and is a chunk of its document. */
  ghost predicate PointsOk(setup: Setup, s: State) {
    forall id :: id in s.points ==> PointOk(setup, id, s.points[id])
  }

  predicate PointOk(setup: Setup, id: int, point: Point) {
    id == setup.pointId(point.docId, point.chunkIndex) && point.chunkIndex < setup.chunkCount(point.docId)
  }

  /** The collection holds the first `hi` chunks of the document. */
  ghost predicate HasPoints(setup: Setup, s: State, d: DocId, hi: nat) {
    forall i: nat :: i < hi ==> HasPoint(setup, s, d, i)
  }

  function Copies(s: State, d: DocId, i: int): nat {
    Held(s.file, d, i)
  }

  ghost predicate HasEntries(setup: Setup, s: State, d: DocId) {
    forall i: nat :: i < setup.chunkCount(d) ==> Copies(s, d, i) >= 1
  }

  predicate HasToAppend(phase: Phase) {
    phase.Upserting? || phase.Upserted?
  }

  /** The attempts on `d` that may still append to the BM25 index. */
  ghost function Live(s: State, d: DocId): set<AttemptId> {
    set a | a in s.attempts && s.attempts[a].docId == d && HasToAppend(s.attempts[a].phase)
  }

  ghost predicate AttemptsOk(setup: Setup, s: State) {
    forall a :: a in s.attempts ==> AttemptOk(setup, s, s.attempts[a])
  }

  /** An attempt has written what its phase says. */
  ghost predicate AttemptOk(setup: Setup, s: State, attempt: Attempt) {
    && |attempt.texts| == setup.chunkCount(attempt.docId)
    && (attempt.phase.Upserting? ==> HasPoints(setup, s, attempt.docId, Min(attempt.phase.next, |attempt.texts|)))
    && (attempt.phase.Upserted? || attempt.phase.Appended? ==> HasPoints(setup, s, attempt.docId, |attempt.texts|))
    && (attempt.phase.Appended? ==> HasEntries(setup, s, attempt.docId))
  }

  /** A ready document is fully present in both stores. */
  ghost predicate ReadyOk(setup: Setup, s: State) {
    forall d :: Status(s, d).Ready? ==> HasPoints(setup, s, d, setup.chunkCount(d)) && HasEntries(setup, s, d)
  }

  /** Each chunk has at most one BM25 entry for every attempt that has started, less those that have
      not appended yet; nothing but chunks of documents is ever entered. */
  ghost predicate CopiesOk(setup: Setup, s: State) {
    && (forall d: DocId, i: int :: Copies(s, d, i) + |Live(s, d)| <= Started(s, d))
    && (forall d: DocId, i: int :: !(0 <= i < setup.chunkCount(d)) ==> Copies(s, d, i) == 0)
  }

  ghost predicate Inv(setup: Setup, s: State) {
    PointsOk(setup, s) && AttemptsOk(setup, s) && ReadyOk(setup, s) && CopiesOk(setup, s)
  }

  // ---------------------------------------------------------------- store lemmas

  predicate BatchPointOk(setup: Setup, attempt: Attempt, lo: nat, hi: nat, id: int, point: Point) {
    && point.docId == attempt.docId
    && lo <= point.chunkIndex < hi
    && id == setup.pointId(attempt.docId, point.chunkIndex)
  }

  predicate BatchHas(setup: Setup, attempt: Attempt, b: map<int, Point>, i: nat)
    requires i < |attempt.texts|
  {
    var id := setup.pointId(attempt.docId, i);
    id in b && b[id] == Point(attempt.docId, i, attempt.texts[i])
  }

  ghost predicate BatchOk(setup: Setup, attempt: Attempt, lo: nat, hi: nat, b: map<int, Point>)
    requires lo <= hi <= |attempt.texts|
  {
    && (forall i: nat :: lo <= i < hi ==> BatchHas(setup, attempt, b, i))
    && (forall id :: id in b ==> BatchPointOk(setup, attempt, lo, hi, id, b[id]))
  }

  lemma {:induction false} BatchPoints(setup: Setup, attempt: Attempt, lo: nat, hi: nat)
    requires setup.Injective() && lo <= hi <= |attempt.texts|
    ensures BatchOk(setup, attempt, lo, hi, Batch(setup, attempt, lo, hi))
    decreases hi
  {
    if lo < hi {
      var last: nat := hi - 1;
      var b, shorter := Batch(setup, attempt, lo, hi), Batch(setup, attempt, lo, last);
      BatchPoints(setup, attempt, lo, last);
      forall i: nat | lo <= i < hi ensures BatchHas(setup, attempt, b, i) {
        if i < last {
          assert BatchHas(setup, attempt, shorter, i);
          assert setup.pointId(attempt.docId, i) != setup.pointId(attempt.docId, last);
        }
      }
      forall id | id in b ensures BatchPointOk(setup, attempt, lo, hi, id, b[id]) {
        if id != setup.pointId(attempt.docId, last) {
          assert BatchPointOk(setup, attempt, lo, last, id, shorter[id]);
        }
      }
    }
  }

  /** A batch writes the points of its own document, and no others. */
  lemma BatchWrites(setup: Setup, s: State, attempt: Attempt, lo: nat, hi: nat, d: DocId, i: nat)
    requires setup.Injective() && lo <= hi <= |attempt.texts|
    ensures var t := s.(points := s.points + Batch(setup, attempt, lo, hi));
            && (HasPoint(setup, s, d, i) ==> HasPoint(setup, t, d, i))
            && (d == attempt.docId && lo <= i < hi ==> HasPoint(setup, t, d, i))
            && (d != attempt.docId ==> SamePoint(setup, s, t, d, i))
  {
    BatchPoints(setup, attempt, lo, hi);
    var b, id := Batch(setup, attempt, lo, hi), setup.pointId(d, i);
    if id in b {
      assert BatchPointOk(setup, attempt, lo, hi, id, b[id]);
    }
    if d == attempt.docId && lo <= i < hi {
      assert BatchHas(setup, attempt, b, i);
    }
  }

  lemma {:induction false} CountRange(payloads: seq<Payload>, first: nat, d: DocId, e: DocId, i: int)
    requires forall k :: 0 <= k < |payloads| ==> payloads[k].docId == d && payloads[k].chunkIndex == first + k
    ensures Count(payloads, e, i) == if e == d && first <= i < first + |payloads| then 1 else 0
    decreases |payloads|
  {
    if payloads != [] {
      CountRange(payloads[1..], first + 1, d, e, i);
    }
  }

  /** One append adds exactly one entry for every chunk of its document. */
  lemma AppendCounts(setup: Setup, s: State, attempt: Attempt, e: DocId, i: int)
    ensures Held(Apply(Update(setup.slug, EntriesOf(attempt)), s.file), e, i)
         == Held(s.file, e, i) + if e == attempt.docId && 0 <= i < |attempt.texts| then 1 else 0
  {
    CountsAfter(Update(setup.slug, EntriesOf(attempt)), s.file, e, i);
    CountRange(EntriesOf(attempt), 0, attempt.docId, e, i);
  }

  // ---------------------------------------------------------------- preservation

  /** No step removes a point or an entry. */
  lemma StoresGrow(setup: Setup, s: State, e: Event)
    requires setup.Injective() && Enabled(setup, s, e)
    ensures forall d, i: nat :: HasPoint(setup, s, d, i) ==> HasPoint(setup, Step(setup, s, e), d, i)
    ensures forall d, i: int :: Copies(s, d, i) <= Copies(Step(setup, s, e), d, i)
  {
    var next := Step(setup, s, e);
    forall d, i: nat | HasPoint(setup, s, d, i) ensures HasPoint(setup, next, d, i) {
      if e.UpsertBatch? {
        var attempt := s.attempts[e.a];
        var lo := Min(attempt.phase.next, |attempt.texts|);
        BatchWrites(setup, s, attempt, lo, Min(lo + BATCH, |attempt.texts|), d, i);
      }
    }
    forall d, i: int ensures Copies(s, d, i) <= Copies(next, d, i) {
      if e.Append? {
        AppendCounts(setup, s, s.attempts[e.a], d, i);
      }
    }
  }

  lemma PointsStep(setup: Setup, s: State, e: Event)
    requires setup.Injective() && PointsOk(setup, s) && AttemptsOk(setup, s) && Enabled(setup, s, e)
    ensures PointsOk(setup, Step(setup, s, e))
  {
    if e.UpsertBatch? {
      var attempt := s.attempts[e.a];
      assert AttemptOk(setup, s, attempt);
      var lo := Min(attempt.phase.next, |attempt.texts|);
      var hi := Min(lo + BATCH, |attempt.texts|);
      BatchPoints(setup, attempt, lo, hi);
      var b, next := Batch(setup, attempt, lo, hi), Step(setup, s, e);
      forall id | id in next.points ensures PointOk(setup, id, next.points[id]) {
        if id in b {
          assert BatchPointOk(setup, attempt, lo, hi, id, b[id]);
        }
      }
    }
  }

  lemma AttemptsStep(setup: Setup, s: State, e: Event)
    requires setup.Injective() && AttemptsOk(setup, s) && Enabled(setup, s, e)
    ensures AttemptsOk(setup, Step(setup, s, e))
  {
    StoresGrow(setup, s, e);
    var next := Step(setup, s, e);
    forall a | a in next.attempts ensures AttemptOk(setup, next, next.attempts[a]) {
      if a in s.attempts {
        assert AttemptOk(setup, s, s.attempts[a]);
      }
      if e.UpsertBatch? && a == e.a {
        UpsertingMoves(setup, s, a);
      } else if e.Append? && a == e.a {
        AppendingEnters(setup, s, a);
      } else {
        hide Copies, HasPoint;
      }
    }
  }

  lemma UpsertingMoves(setup: Setup, s: State, a: AttemptId)
    requires setup.Injective() && Enabled(setup, s, UpsertBatch(a)) && AttemptOk(setup, s, s.attempts[a])
    ensures AttemptOk(setup, Step(setup, s, UpsertBatch(a)), Step(setup, s, UpsertBatch(a)).attempts[a])
  {
    var attempt, next := s.attempts[a], Step(setup, s, UpsertBatch(a));
    var lo := Min(attempt.phase.next, |attempt.texts|);
    var hi := Min(lo + BATCH, |attempt.texts|);
    forall i: nat | i < hi ensures HasPoint(setup, next, attempt.docId, i) {
      BatchWrites(setup, s, attempt, lo, hi, attempt.docId, i);
    }
  }

  lemma AppendingEnters(setup: Setup, s: State, a: AttemptId)
    requires Enabled(setup, s, Append(a)) && AttemptOk(setup, s, s.attempts[a])
    ensures AttemptOk(setup, Step(setup, s, Append(a)), Step(setup, s, Append(a)).attempts[a])
  {
    var attempt, next := s.attempts[a], Step(setup, s, Append(a));
    forall i: nat | i < setup.chunkCount(attempt.docId) ensures Copies(next, attempt.docId, i) >= 1 {
      AppendCounts(setup, s, attempt, attempt.docId, i);
    }
    assert HasEntries(setup, next, attempt.docId);
    forall i: nat | i < |attempt.texts| ensures HasPoint(setup, next, attempt.docId, i) {
      assert HasPoint(setup, s, attempt.docId, i);
    }
  }

  lemma ReadyStep(setup: Setup, s: State, e: Event)
    requires setup.Injective() && Inv(setup, s) && Enabled(setup, s, e)
    ensures ReadyOk(setup, Step(setup, s, e))
  {
    StoresGrow(setup, s, e);
    var next := Step(setup, s, e);
    forall d | Status(next, d).Ready?
      ensures HasPoints(setup, next, d, setup.chunkCount(d)) && HasEntries(setup, next, d)
    {
      if e.MarkReady? && d == s.attempts[e.a].docId {
        assert AttemptOk(setup, s, s.attempts[e.a]);
      }
      forall i: nat | i < setup.chunkCount(d) ensures Copies(next, d, i) >= 1 && HasPoint(setup, next, d, i) {
        assert Copies(s, d, i) >= 1 && HasPoint(setup, s, d, i);
      }
    }
  }

  lemma CopiesStep(setup: Setup, s: State, e: Event)
    requires Inv(setup, s) && Enabled(setup, s, e)
    ensures CopiesOk(setup, Step(setup, s, e))
  {
    var next := Step(setup, s, e);
    forall d: DocId, i: int
      ensures Copies(next, d, i) + |Live(next, d)| <= Started(next, d)
      ensures !(0 <= i < setup.chunkCount(d)) ==> Copies(next, d, i) == 0
    {
      LiveStep(setup, s, e, d);
      if e.Append? {
        AppendCounts(setup, s, s.attempts[e.a], d, i);
      }
      assert Copies(s, d, i) + |Live(s, d)| <= Started(s, d);
    }
  }

  lemma LiveStep(setup: Setup, s: State, e: Event, d: DocId)
    requires Enabled(setup, s, e)
    ensures var next := Step(setup, s, e);
            |Live(next, d)| + (if e.Append? && s.attempts[e.a].docId == d then 1 else 0)
            <= |Live(s, d)| + (if e.Start? && e.docId == d then 1 else 0)
  {
    var was, now := Live(s, d), Live(Step(setup, s, e), d);
    if e.Start? && e.docId == d {
      LiveAfterStart(setup, s, e, d);
      SubsetSize(now, was + {e.a});
    } else if e.Append? && s.attempts[e.a].docId == d {
      LiveAfterAppend(setup, s, e.a);
    } else {
      LiveOtherwise(setup, s, e, d);
      SubsetSize(now, was);
    }
  }

  lemma LiveAfterStart(setup: Setup, s: State, e: Event, d: DocId)
    requires Enabled(setup, s, e) && e.Start?
    ensures Live(Step(setup, s, e), d) <= Live(s, d) + {e.a}
  {
  }

  lemma LiveAfterAppend(setup: Setup, s: State, a: AttemptId)
    requires Enabled(setup, s, Append(a))
    ensures var d := s.attempts[a].docId;
            a in Live(s, d) && Live(Step(setup, s, Append(a)), d) == Live(s, d) - {a}
  {
  }

  lemma LiveOtherwise(setup: Setup, s: State, e: Event, d: DocId)
    requires Enabled(setup, s, e) && !(e.Start? && e.docId == d)
    ensures Live(Step(setup, s, e), d) <= Live(s, d)
  {
    hide Batch, EntriesOf;
  }

  lemma {:induction false} SubsetSize<T>(a: set<T>, b: set<T>)
    requires a <= b
    ensures |a| <= |b|
  {
    assert b == a + (b - a);
  }

  lemma InvStep(setup: Setup, s: State, e: Event)
    requires setup.Injective() && Inv(setup, s) && Enabled(setup, s, e)
    ensures Inv(setup, Step(setup, s, e))
  {
    hide PointsOk, AttemptsOk, ReadyOk, CopiesOk, Step;
    PointsStep(setup, s, e);
    AttemptsStep(setup, s, e);
    ReadyStep(setup, s, e);
    CopiesStep(setup, s, e);
  }

  lemma {:induction false} InvRun(setup: Setup, s: State, es: seq<Event>)
    requires setup.Injective() && Inv(setup, s) && Run(setup, s, es)
    ensures Inv(setup, After(setup, s, es))
    decreases |es|
  {
    if es != [] {
      InvStep(setup, s, es[0]);
      hide Inv, Enabled, Step;
      InvRun(setup, Step(setup, s, es[0]), es[1..]);
    }
  }

  // ---------------------------------------------------------------- theorems

  lemma InvEmpty(setup: Setup)
    ensures Inv(setup, Empty())
  {
    forall d: DocId ensures Live(Empty(), d) == {} {
    }
  }

  /** `id` holds chunk `i` of document `d`. */
  predicate PointOf(s: State, id: int, d: DocId, i: nat) {
    id in s.points && s.points[id].docId == d && s.points[id].chunkIndex == i
  }

  /** Retries never duplicate a point, and leave at most one BM25 entry of a chunk per attempt. */
  lemma RetriesAreBounded(setup: Setup, es: seq<Event>, d: DocId, i: nat)
    requires setup.Injective() && Run(setup, Empty(), es)
    ensures var s := After(setup, Empty(), es);
            && (forall p, q :: PointOf(s, p, d, i) && PointOf(s, q, d, i) ==> p == q)
            && Copies(s, d, i) <= Started(s, d)
  {
    InvEmpty(setup);
    InvRun(setup, Empty(), es);
    CopiesBound(setup, After(setup, Empty(), es), d, i);
  }

  lemma CopiesBound(setup: Setup, s: State, d: DocId, i: nat)
    requires Inv(setup, s)
    ensures forall p, q :: PointOf(s, p, d, i) && PointOf(s, q, d, i) ==> p == q
    ensures Copies(s, d, i) <= Started(s, d)
  {
    assert Copies(s, d, i) + |Live(s, d)| <= Started(s, d);
  }

  /** Both stores hold exactly the chunks of `d`. */
  ghost predicate SameKeys(setup: Setup, s: State, d: DocId) {
    forall i: nat ::
      && (HasPoint(setup, s, d, i) <==> i < setup.chunkCount(d))
      && (Copies(s, d, i) >= 1 <==> i < setup.chunkCount(d))
  }

  /** Whenever a document is ready, in particular when an attempt marks it so, both stores hold the
      same chunks of it: all of them. */
  lemma ReadyMeansSameKeys(setup: Setup, es: seq<Event>, d: DocId)
    requires setup.Injective() && Run(setup, Empty(), es)
    requires Status(After(setup, Empty(), es), d).Ready?
    ensures SameKeys(setup, After(setup, Empty(), es), d)
  {
    InvEmpty(setup);
    InvRun(setup, Empty(), es);
    var s := After(setup, Empty(), es);
    forall i: nat
      ensures HasPoint(setup, s, d, i) <==> i < setup.chunkCount(d)
      ensures Copies(s, d, i) >= 1 <==> i < setup.chunkCount(d)
    {
      assert Copies(s, d, i) + |Live(s, d)| <= Started(s, d);
    }
  }

  /** Once a document is ready and no attempt on it has still to append, no number of further attempts
      changes either store for it. */
  lemma {:induction false} ReadyDocumentIsLeftAlone(setup: Setup, s: State, es: seq<Event>, d: DocId, i: nat)
    requires setup.Injective() && Inv(setup, s) && Run(setup, s, es)
    requires Status(s, d).Ready? && Live(s, d) == {} && MarkError(d) !in es
    ensures var t := After(setup, s, es);
            Copies(t, d, i) == Copies(s, d, i) && SamePoint(setup, s, t, d, i)
    decreases |es|
  {
    if es != [] {
      InvStep(setup, s, es[0]);
      NobodyWrites(setup, s, es[0], d, i);
      hide Inv, Enabled, Step, Live, Status;
      ReadyDocumentIsLeftAlone(setup, Step(setup, s, es[0]), es[1..], d, i);
    }
  }

  lemma NobodyWrites(setup: Setup, s: State, e: Event, d: DocId, i: nat)
    requires setup.Injective() && Enabled(setup, s, e)
    requires Status(s, d).Ready? && Live(s, d) == {} && e != MarkError(d)
    ensures var t := Step(setup, s, e);
            && Status(t, d).Ready? && Live(t, d) == {}
            && Copies(t, d, i) == Copies(s, d, i)
            && SamePoint(setup, s, t, d, i)
  {
    if e.UpsertBatch? {
      var attempt := s.attempts[e.a];
      assert attempt.docId != d by {
        assert e.a !in Live(s, d);
      }
      var lo := Min(attempt.phase.next, |attempt.texts|);
      BatchWrites(setup, s, attempt, lo, Min(lo + BATCH, |attempt.texts|), d, i);
    } else if e.Append? {
      assert e.a !in Live(s, d);
      AppendCounts(setup, s, s.attempts[e.a], d, i);
    }
  }

  /** Both stores hold of the document what they held before. */
  ghost predicate StoresKept(setup: Setup, s: State, t: State, d: DocId) {
    forall i: nat :: Copies(t, d, i) == Copies(s, d, i) && SamePoint(setup, s, t, d, i)
  }

  /** Exactly when a ready document, not marked as failed meanwhile, stays as it is in both stores: in
      every run, if and only if no attempt on it has still to append (or it has no chunks). */
  lemma ReadyDocumentFixedIff(setup: Setup, s: State, d: DocId)
    requires setup.Injective() && Inv(setup, s) && Status(s, d).Ready?
    ensures (forall es :: Run(setup, s, es) && MarkError(d) !in es ==> StoresKept(setup, s, After(setup, s, es), d))
       <==> Live(s, d) == {} || setup.chunkCount(d) == 0
  {
    if Live(s, d) == {} || setup.chunkCount(d) == 0 {
      forall es | Run(setup, s, es) && MarkError(d) !in es ensures StoresKept(setup, s, After(setup, s, es), d) {
        forall i: nat
          ensures Copies(After(setup, s, es), d, i) == Copies(s, d, i) && SamePoint(setup, s, After(setup, s, es), d, i)
        {
          if Live(s, d) == {} {
            ReadyDocumentIsLeftAlone(setup, s, es, d, i);
          } else {
            InvRun(setup, s, es);
            NothingOfEmptyDocument(setup, s, d, i);
            NothingOfEmptyDocument(setup, After(setup, s, es), d, i);
          }
        }
      }
    } else {
      var a :| a in Live(s, d);
      LiveAttemptAppends(setup, s, a, d);
    }
  }

  lemma NothingOfEmptyDocument(setup: Setup, s: State, d: DocId, i: nat)
    requires Inv(setup, s) && setup.chunkCount(d) == 0
    ensures Copies(s, d, i) == 0 && !HasPoint(setup, s, d, i)
  {
  }

  lemma OneStep(setup: Setup, s: State, e: Event)
    requires Enabled(setup, s, e)
    ensures Run(setup, s, [e]) && After(setup, s, [e]) == Step(setup, s, e)
  {
    hide Step, Enabled;
    assert [e][1..] == [];
  }

  /** The run adds one entry of the document's first chunk. */
  predicate AppendsOnce(setup: Setup, s: State, es: seq<Event>, d: DocId) {
    MarkError(d) !in es && Run(setup, s, es) && Copies(After(setup, s, es), d, 0) == Copies(s, d, 0) + 1
  }

  /** An attempt that has still to append can go on to do so, and then there is one more entry. */
  lemma {:induction false} LiveAttemptAppends(setup: Setup, s: State, a: AttemptId, d: DocId)
    requires setup.Injective() && Inv(setup, s) && a in Live(s, d) && setup.chunkCount(d) >= 1
    ensures exists es :: AppendsOnce(setup, s, es, d)
    decreases var attempt := s.attempts[a];
              if attempt.phase.Upserting? then 1 + |attempt.texts| - Min(attempt.phase.next, |attempt.texts|) else 0
  {
    if s.attempts[a].phase.Upserting? {
      var e := UpsertBatch(a);
      var next := Step(setup, s, e);
      InvStep(setup, s, e);
      assert a in Live(next, d) && Copies(next, d, 0) == Copies(s, d, 0);
      LiveAttemptAppends(setup, next, a, d);
      var later :| AppendsOnce(setup, next, later, d);
      hide Step, Enabled;
      var es := [e] + later;
      assert es[0] == e && es[1..] == later;
      assert After(setup, s, es) == After(setup, next, later);
      assert AppendsOnce(setup, s, es, d);
    } else {
      OneStep(setup, s, Append(a));
      AppendCounts(setup, s, s.attempts[a], d, 0);
      assert AppendsOnce(setup, s, [Append(a)], d);
    }
  }

  // ---------------------------------------------------------------- attempts on ready documents

  /** Attempt `a` writes to a store, or marks its document. */
  predicate WritesFor(e: Event, a: AttemptId) {
    e == UpsertBatch(a) || e == Append(a) || e == MarkReady(a)
  }

  predicate Idle(s: State, a: AttemptId) {
    a in s.attempts && (s.attempts[a].phase.Skipped? || s.attempts[a].phase.Ended?)
  }

  lemma IdleStep(setup: Setup, s: State, e: Event, a: AttemptId)
    requires Enabled(setup, s, e) && Idle(s, a)
    ensures Idle(Step(setup, s, e), a) && !WritesFor(e, a)
  {
  }

  lemma {:induction false} IdleRun(setup: Setup, s: State, es: seq<Event>, a: AttemptId)
    requires Run(setup, s, es) && Idle(s, a)
    ensures forall k :: 0 <= k < |es| ==> !WritesFor(es[k], a)
    decreases |es|
  {
    if es != [] {
      hide Enabled, Step;
      IdleStep(setup, s, es[0], a);
      IdleRun(setup, Step(setup, s, es[0]), es[1..], a);
      assert forall k :: 1 <= k < |es| ==> es[k] == es[1..][k - 1];
    }
  }

  /** An attempt that starts while its document is ready writes to neither store in any later run,
      whatever other attempts do and even if the document is marked as failed meanwhile. */
  lemma LateAttemptWritesNothing(setup: Setup, s: State, a: AttemptId, d: DocId, texts: seq<string>, es: seq<Event>)
    requires Enabled(setup, s, Start(a, d, texts)) && Status(s, d).Ready?
    requires Run(setup, Step(setup, s, Start(a, d, texts)), es)
    ensures forall k :: 0 <= k < |es| ==> !WritesFor(es[k], a)
  {
    IdleRun(setup, Step(setup, s, Start(a, d, texts)), es, a);
  }
}
