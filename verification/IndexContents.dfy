/** What the two stores hold, beyond which chunks they hold (ingestion/indexer.py `ingest`): every text is
    one that an attempt brought along, and a document without chunks never becomes ready. */
module IndexContents {
  import opened Options
  import opened Bm25Index
  import opened IndexWriter

  /** Only an attempt whose status update takes effect makes its document ready, and only an error mark takes
      that back. */
  lemma StatusLaw(setup: Setup, s: State, e: Event, d: DocId)
    requires Enabled(setup, s, e)
    ensures Status(Step(setup, s, e), d)
         == if e.MarkReady? && s.attempts[e.a].docId == d then Ready
            else if e == MarkError(d) then Errored else Status(s, d)
  {
    hide Batch, EntriesOf, Apply;
  }

  /** One call to the collection writes the attempt's next hundred chunks, or what is left of them, with its
      texts, and touches no other chunk; the attempt then goes on behind them, or is through. */
  lemma BatchLaw(setup: Setup, s: State, a: AttemptId, d: DocId, i: nat)
    requires setup.Injective() && Enabled(setup, s, UpsertBatch(a))
    ensures var attempt, next := s.attempts[a], Step(setup, s, UpsertBatch(a));
            var from := attempt.phase.next;
            && (if d == attempt.docId && from <= i < from + 100 && i < |attempt.texts|
                then HasPoint(setup, next, d, i) && next.points[setup.pointId(d, i)].text == attempt.texts[i]
                else SamePoint(setup, s, next, d, i))
            && next.attempts[a].phase == if from + 100 < |attempt.texts| then Upserting(from + 100) else Upserted
  {
    var attempt := s.attempts[a];
    var lo := Min(attempt.phase.next, |attempt.texts|);
    var hi := Min(lo + BATCH, |attempt.texts|);
    var b, id := Batch(setup, attempt, lo, hi), setup.pointId(d, i);
    BatchPoints(setup, attempt, lo, hi);
    if id in b {
      assert BatchPointOk(setup, attempt, lo, hi, id, b[id]);
    }
    if d == attempt.docId && lo <= i < hi {
      assert BatchHas(setup, attempt, b, i);
    }
  }

  /** Some attempt on document `d` has brought `text` as its chunk `i`. */
  ghost predicate Brought(s: State, d: DocId, i: int, text: string) {
    exists a :: a in s.attempts && BringsText(s.attempts[a], d, i, text)
  }

  predicate BringsText(attempt: Attempt, d: DocId, i: int, text: string) {
    attempt.docId == d && 0 <= i < |attempt.texts| && attempt.texts[i] == text
  }

  ghost predicate PointsBrought(s: State) {
    forall id :: id in s.points ==> Brought(s, s.points[id].docId, s.points[id].chunkIndex, s.points[id].text)
  }

  ghost predicate EntryBrought(s: State, entry: Payload) {
    Brought(s, entry.docId, entry.chunkIndex, entry.text)
  }

  ghost predicate FileBrought(s: State) {
    s.file.Some? ==>
      && Aligned(s.file.value)
      && forall k :: 0 <= k < |s.file.value.payloads| ==> EntryBrought(s, s.file.value.payloads[k])
  }

  /** An attempt on a document without chunks writes nothing. */
  ghost predicate OnlyChunksGoOn(s: State) {
    forall a :: a in s.attempts && s.attempts[a].texts == [] ==>
                  s.attempts[a].phase.Ended? || s.attempts[a].phase.Skipped?
  }

  ghost predicate ReadyHasChunks(setup: Setup, s: State) {
    forall d :: Status(s, d).Ready? ==> setup.chunkCount(d) >= 1
  }

  ghost predicate ContentsOk(setup: Setup, s: State) {
    PointsBrought(s) && FileBrought(s) && OnlyChunksGoOn(s) && ReadyHasChunks(setup, s)
  }

  /** Attempts keep their document and texts. */
  lemma BroughtStays(setup: Setup, s: State, e: Event, d: DocId, i: int, text: string)
    requires Enabled(setup, s, e) && Brought(s, d, i, text)
    ensures Brought(Step(setup, s, e), d, i, text)
  {
    var a :| a in s.attempts && BringsText(s.attempts[a], d, i, text);
    assert a in Step(setup, s, e).attempts && BringsText(Step(setup, s, e).attempts[a], d, i, text);
  }

  lemma PointsBroughtStep(setup: Setup, s: State, e: Event)
    requires setup.Injective() && Enabled(setup, s, e) && PointsBrought(s)
    ensures PointsBrought(Step(setup, s, e))
  {
    var next := Step(setup, s, e);
    forall id | id in next.points
      ensures Brought(next, next.points[id].docId, next.points[id].chunkIndex, next.points[id].text)
    {
      if e.UpsertBatch? {
        var attempt := s.attempts[e.a];
        var lo := Min(attempt.phase.next, |attempt.texts|);
        var hi := Min(lo + BATCH, |attempt.texts|);
        if id in Batch(setup, attempt, lo, hi) {
          BatchPointBrought(setup, attempt, lo, hi, id);
          assert BringsText(next.attempts[e.a], attempt.docId, next.points[id].chunkIndex, next.points[id].text);
        } else {
          BroughtStays(setup, s, e, s.points[id].docId, s.points[id].chunkIndex, s.points[id].text);
        }
      } else {
        BroughtStays(setup, s, e, s.points[id].docId, s.points[id].chunkIndex, s.points[id].text);
      }
    }
  }

  lemma BatchPointBrought(setup: Setup, attempt: Attempt, lo: nat, hi: nat, id: int)
    requires setup.Injective() && lo <= hi <= |attempt.texts| && id in Batch(setup, attempt, lo, hi)
    ensures var point := Batch(setup, attempt, lo, hi)[id];
            point.docId == attempt.docId && BringsText(attempt, attempt.docId, point.chunkIndex, point.text)
  {
    BatchPoints(setup, attempt, lo, hi);
    var b := Batch(setup, attempt, lo, hi);
    assert BatchPointOk(setup, attempt, lo, hi, id, b[id]);
    assert BatchHas(setup, attempt, b, b[id].chunkIndex);
  }

  lemma FileBroughtStep(setup: Setup, s: State, e: Event)
    requires Enabled(setup, s, e) && FileBrought(s)
    ensures FileBrought(Step(setup, s, e))
  {
    var next := Step(setup, s, e);
    if e.Append? {
      ApplyKeepsAligned(Update(setup.slug, EntriesOf(s.attempts[e.a])), s.file);
    }
    if next.file.Some? {
      var entries := next.file.value.payloads;
      var kept := if s.file.Some? then |s.file.value.payloads| else 0;
      forall k | 0 <= k < |entries| ensures EntryBrought(next, entries[k]) {
        if k < kept {
          assert EntryBrought(s, s.file.value.payloads[k]);
          BroughtStays(setup, s, e, entries[k].docId, entries[k].chunkIndex, entries[k].text);
        } else {
          assert BringsText(next.attempts[e.a], entries[k].docId, entries[k].chunkIndex, entries[k].text);
        }
      }
    }
  }

  lemma OnlyChunksGoOnStep(setup: Setup, s: State, e: Event)
    requires Enabled(setup, s, e) && OnlyChunksGoOn(s)
    ensures OnlyChunksGoOn(Step(setup, s, e))
  {
    hide Batch, EntriesOf, Apply;
  }

  lemma ReadyHasChunksStep(setup: Setup, s: State, e: Event)
    requires Enabled(setup, s, e) && AttemptsOk(setup, s) && OnlyChunksGoOn(s) && ReadyHasChunks(setup, s)
    ensures ReadyHasChunks(setup, Step(setup, s, e))
  {
    hide Batch, EntriesOf, Apply, HasPoints, HasEntries;
    if e.MarkReady? {
      assert AttemptOk(setup, s, s.attempts[e.a]);
    }
  }

  lemma {:induction false} ContentsRun(setup: Setup, s: State, es: seq<Event>)
    requires setup.Injective() && Inv(setup, s) && ContentsOk(setup, s) && Run(setup, s, es)
    ensures ContentsOk(setup, After(setup, s, es))
    decreases |es|
  {
    if es != [] {
      hide Step, Enabled, AttemptsOk, OnlyChunksGoOn, PointsBrought, FileBrought, ReadyHasChunks;
      PointsBroughtStep(setup, s, es[0]);
      FileBroughtStep(setup, s, es[0]);
      OnlyChunksGoOnStep(setup, s, es[0]);
      ReadyHasChunksStep(setup, s, es[0]);
      InvStep(setup, s, es[0]);
      ContentsRun(setup, Step(setup, s, es[0]), es[1..]);
    }
  }

  /** With any crashes, retries and overlaps, both stores hold nothing but texts that attempts brought for
      that very chunk, and the BM25 file keeps texts and payloads side by side. */
  lemma StoresHoldBroughtTexts(setup: Setup, es: seq<Event>)
    requires setup.Injective() && Run(setup, Empty(), es)
    ensures var s := After(setup, Empty(), es);
            && (forall id :: id in s.points ==>
                  Brought(s, s.points[id].docId, s.points[id].chunkIndex, s.points[id].text))
            && (s.file.Some? ==>
                  && Aligned(s.file.value)
                  && forall k :: 0 <= k < |s.file.value.payloads| ==> EntryBrought(s, s.file.value.payloads[k]))
  {
    InvEmpty(setup);
    ContentsRun(setup, Empty(), es);
  }

  /** A document without chunks is never marked as ready: its attempts end at once. */
  lemma ReadyDocumentHasChunks(setup: Setup, es: seq<Event>, d: DocId)
    requires setup.Injective() && Run(setup, Empty(), es) && Status(After(setup, Empty(), es), d).Ready?
    ensures setup.chunkCount(d) >= 1
  {
    InvEmpty(setup);
    ContentsRun(setup, Empty(), es);
  }

  /** All attempts on the document bring the same texts, as they do when no language model enriches them. */
  ghost predicate SameTexts(s: State, d: DocId, texts: seq<string>) {
    forall a :: a in s.attempts && s.attempts[a].docId == d ==> s.attempts[a].texts == texts
  }

  /** Then both stores agree on every text of a ready document, however many attempts it took: the point
      of a chunk carries its text, and so does every BM25 entry of it. */
  lemma ReadyStoresAgree(setup: Setup, es: seq<Event>, d: DocId, texts: seq<string>, i: nat)
    requires setup.Injective() && Run(setup, Empty(), es) && i < setup.chunkCount(d)
    requires Status(After(setup, Empty(), es), d).Ready? && SameTexts(After(setup, Empty(), es), d, texts)
    ensures var s := After(setup, Empty(), es);
            && i < |texts|
            && setup.pointId(d, i) in s.points && s.points[setup.pointId(d, i)].text == texts[i]
            && s.file.Some? && Aligned(s.file.value)
            && (exists k :: 0 <= k < |s.file.value.payloads| && EntryOf(s.file.value.payloads[k], d, i))
            && (forall k :: 0 <= k < |s.file.value.payloads| && EntryOf(s.file.value.payloads[k], d, i) ==>
                  s.file.value.texts[k] == texts[i])
  {
    var s := After(setup, Empty(), es);
    ReadyMeansSameKeys(setup, es, d);
    StoresHoldBroughtTexts(setup, es);
    hide Run, After, Status;
    assert HasPoint(setup, s, d, i) && Copies(s, d, i) >= 1;
    var entries := s.file.value.payloads;
    CountedIsThere(entries, d, i);
    forall k | 0 <= k < |entries| && EntryOf(entries[k], d, i) ensures s.file.value.texts[k] == texts[i] {
      assert EntryBrought(s, entries[k]);
    }
  }

  predicate EntryOf(entry: Payload, d: DocId, i: int) {
    entry.docId == d && entry.chunkIndex == i
  }

  lemma {:induction false} CountedIsThere(entries: seq<Payload>, d: DocId, i: int)
    requires Count(entries, d, i) >= 1
    ensures exists k :: 0 <= k < |entries| && EntryOf(entries[k], d, i)
  {
    if !EntryOf(entries[0], d, i) {
      CountedIsThere(entries[1..], d, i);
      var k :| 0 <= k < |entries[1..]| && EntryOf(entries[1..][k], d, i);
      assert EntryOf(entries[k + 1], d, i);
    }
  }
}
