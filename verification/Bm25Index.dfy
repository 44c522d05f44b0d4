/** The per-tenant BM25 index files (ingestion/indexer.py, `_update_bm25` and `_remove_from_bm25`;
    read by retrieval/bm25_store.py). */
module Bm25Index {
  import opened Options
  import opened PyText

  datatype Payload = Payload(docId: string, chunkIndex: int, text: string, filename: string,
                             startChar: int, endChar: int)

  /** What the file holds besides the retriever, which is rebuilt from `texts`. */
  datatype Index = Index(texts: seq<string>, payloads: seq<Payload>)

  /** A search result is an index into `texts`, used on `payloads`. */
  ghost predicate Aligned(index: Index) {
    && |index.texts| == |index.payloads|
    && forall i :: 0 <= i < |index.texts| ==> index.texts[i] == index.payloads[i].text
  }

  ghost predicate AlignedFile(file: Option<Index>) {
    file.Some? ==> Aligned(file.value)
  }

  function Texts(payloads: seq<Payload>): seq<string> {
    seq(|payloads|, i requires 0 <= i < |payloads| => payloads[i].text)
  }

  function Without(payloads: seq<Payload>, docId: string): seq<Payload> {
    if payloads == [] then []
    else (if payloads[0].docId != docId then [payloads[0]] else []) + Without(payloads[1..], docId)
  }

  datatype Operation = Update(slug: string, payloads: seq<Payload>) | Remove(slug: string, docId: string)

  /** What one operation makes of its tenant's file; no file stands for an index without entries. */
  function Apply(op: Operation, file: Option<Index>): Option<Index> {
    match op
    case Update(_, payloads) =>
      var before := if file.Some? then file.value else Index([], []);
      Some(Index(before.texts + Texts(payloads), before.payloads + payloads))
    case Remove(_, docId) =>
      if file.None? then None
      else
        var kept := Without(file.value.payloads, docId);
        if kept == [] then None else Some(Index(Texts(kept), kept))
  }

  lemma ApplyKeepsAligned(op: Operation, file: Option<Index>)
    requires AlignedFile(file)
    ensures AlignedFile(Apply(op, file))
  {
  }

  function Count(payloads: seq<Payload>, docId: string, chunkIndex: int): nat {
    if payloads == [] then 0
    else (if payloads[0].docId == docId && payloads[0].chunkIndex == chunkIndex then 1 else 0)
         + Count(payloads[1..], docId, chunkIndex)
  }

  lemma {:induction false} CountConcat(a: seq<Payload>, b: seq<Payload>, docId: string, chunkIndex: int)
    ensures Count(a + b, docId, chunkIndex) == Count(a, docId, chunkIndex) + Count(b, docId, chunkIndex)
  {
    if a == [] {
      assert a + b == b;
    } else {
      assert (a + b)[1..] == a[1..] + b;
      CountConcat(a[1..], b, docId, chunkIndex);
    }
  }

  /** Removing a document removes all of its entries and none of any other document's. */
  lemma {:induction false} RemovalIsExact(payloads: seq<Payload>, removed: string, docId: string, chunkIndex: int)
    ensures Count(Without(payloads, removed), docId, chunkIndex)
         == if docId == removed then 0 else Count(payloads, docId, chunkIndex)
  {
    if payloads != [] {
      RemovalIsExact(payloads[1..], removed, docId, chunkIndex);
      var head := if payloads[0].docId != removed then [payloads[0]] else [];
      CountConcat(head, Without(payloads[1..], removed), docId, chunkIndex);
    }
  }

  lemma {:induction false} WithoutSnoc(payloads: seq<Payload>, last: Payload, docId: string)
    ensures Without(payloads + [last], docId)
         == Without(payloads, docId) + if last.docId != docId then [last] else []
  {
    if payloads == [] {
      assert payloads + [last] == [last];
    } else {
      assert (payloads + [last])[1..] == payloads[1..] + [last];
      WithoutSnoc(payloads[1..], last, docId);
    }
  }

  function OfOthers(docId: string): Payload -> bool {
    (p: Payload) => p.docId != docId
  }

  /** The entries kept are those of the other documents, in their order. */
  lemma {:induction false} WithoutFilters(payloads: seq<Payload>, docId: string)
    ensures IsFiltered(Without(payloads, docId), payloads, OfOthers(docId))
    decreases |payloads|
  {
    if payloads == [] {
      FilteredNothing(OfOthers(docId));
    } else {
      var n := |payloads| - 1;
      assert payloads == payloads[..n] + [payloads[n]];
      WithoutFilters(payloads[..n], docId);
      FilteredSnoc(Without(payloads[..n], docId), payloads[..n], OfOthers(docId), payloads[n]);
      WithoutSnoc(payloads[..n], payloads[n], docId);
    }
  }

  /** How often a file holds a chunk; no file holds nothing. */
  function Held(file: Option<Index>, docId: string, chunkIndex: int): nat {
    if file.Some? then Count(file.value.payloads, docId, chunkIndex) else 0
  }

  /** What an operation does to the count of every chunk: an update adds its own chunks, a removal takes
      its document's away, and nothing else changes. */
  lemma CountsAfter(op: Operation, file: Option<Index>, docId: string, chunkIndex: int)
    ensures Held(Apply(op, file), docId, chunkIndex)
         == if op.Update? then Held(file, docId, chunkIndex) + Count(op.payloads, docId, chunkIndex)
            else if op.docId == docId then 0 else Held(file, docId, chunkIndex)
  {
    match op
    case Update(_, payloads) =>
      CountConcat(if file.Some? then file.value.payloads else [], payloads, docId, chunkIndex);
    case Remove(_, removed) =>
      if file.Some? {
        RemovalIsExact(file.value.payloads, removed, docId, chunkIndex);
      }
  }

  /** An updated file starts with all it held, and goes on with the new chunks. */
  predicate Appended(before: Option<Index>, after: Index, payloads: seq<Payload>) {
    var kept := if before.Some? then |before.value.payloads| else 0;
    && (before.Some? ==> before.value.payloads <= after.payloads && before.value.texts <= after.texts)
    && |after.payloads| == kept + |payloads| && after.payloads[kept..] == payloads
  }

  /** A removal leaves the other documents' entries in their order, and no file if there are none. */
  ghost predicate Removed(before: Option<Index>, after: Option<Index>, docId: string) {
    && (after.Some? <==> before.Some? && exists i :: 0 <= i < |before.value.payloads|
                                                 && before.value.payloads[i].docId != docId)
    && (after.Some? ==> IsFiltered(after.value.payloads, before.value.payloads, OfOthers(docId)))
  }

  lemma RemovalFilters(slug: string, docId: string, file: Option<Index>)
    ensures Removed(file, Apply(Remove(slug, docId), file), docId)
  {
    if file.Some? {
      var payloads := file.value.payloads;
      WithoutFilters(payloads, docId);
      FilteredSome(Without(payloads, docId), payloads, OfOthers(docId));
      hide Without, IsFiltered;
      OthersAre(payloads, docId);
    }
  }

  lemma OthersAre(payloads: seq<Payload>, docId: string)
    ensures (exists i :: 0 <= i < |payloads| && OfOthers(docId)(payloads[i]))
       <==> exists i :: 0 <= i < |payloads| && payloads[i].docId != docId
  {
    if i :| 0 <= i < |payloads| && payloads[i].docId != docId {
      assert OfOthers(docId)(payloads[i]);
    }
  }

  function FileOf(files: map<string, Index>, slug: string): Option<Index> {
    if slug in files then Some(files[slug]) else None
  }

  function SetFile(files: map<string, Index>, slug: string, file: Option<Index>): map<string, Index> {
    if file.Some? then files[slug := file.value] else files - {slug}
  }

  /** The entries of an index that do not belong to the document, as two lists. */
  method Keep(data: Index, docId: string) returns (texts: seq<string>, payloads: seq<Payload>)
    requires Aligned(data)
    ensures payloads == Without(data.payloads, docId)
    ensures texts == Texts(payloads)
  {
    texts, payloads := [], [];
    for i := 0 to |data.texts|
      invariant payloads == Without(data.payloads[..i], docId)
      invariant texts == Texts(payloads)
    {
      WithoutSnoc(data.payloads[..i], data.payloads[i], docId);
      assert data.payloads[..i + 1] == data.payloads[..i] + [data.payloads[i]];
      if data.payloads[i].docId != docId {
        texts := texts + [data.texts[i]];
        payloads := payloads + [data.payloads[i]];
      }
    }
    assert data.payloads[..|data.texts|] == data.payloads;
  }

  /** The index directory, used by one thread at a time. */
  class IndexDirectory {
    var files: map<string, Index>

    ghost predicate Valid()
      reads this
    {
      forall slug :: slug in files ==> Aligned(files[slug])
    }

    constructor ()
      ensures Valid() && files == map[]
    {
      files := map[];
    }

    /** `_update_bm25` */
    method UpdateBm25(slug: string, payloads: seq<Payload>)
      requires Valid()
      modifies this
      ensures Valid()
      ensures files == SetFile(old(files), slug, Apply(Update(slug, payloads), FileOf(old(files), slug)))
      ensures slug in files && Appended(FileOf(old(files), slug), files[slug], payloads)
      ensures forall other :: other != slug ==> FileOf(files, other) == FileOf(old(files), other)
    {
      var allTexts, allPayloads := Texts(payloads), payloads;
      if slug in files {
        allTexts := files[slug].texts + allTexts;
        allPayloads := files[slug].payloads + payloads;
      }
      ApplyKeepsAligned(Update(slug, payloads), FileOf(files, slug));
      assert [] + Texts(payloads) == Texts(payloads) && [] + payloads == payloads;
      files := files[slug := Index(allTexts, allPayloads)];
    }

    /** `_remove_from_bm25` */
    method RemoveFromBm25(docId: string, slug: string)
      requires Valid()
      modifies this
      ensures Valid()
      ensures files == SetFile(old(files), slug, Apply(Remove(slug, docId), FileOf(old(files), slug)))
      ensures Removed(FileOf(old(files), slug), FileOf(files, slug), docId)
      ensures forall other :: other != slug ==> FileOf(files, other) == FileOf(old(files), other)
    {
      RemovalFilters(slug, docId, FileOf(files, slug));
      if slug !in files {
        assert files == files - {slug};
        return;
      }
      var data := files[slug];
      var keptTexts, keptPayloads := Keep(data, docId);
      ApplyKeepsAligned(Remove(slug, docId), Some(data));
      hide Without, Texts, Removed;
      if keptPayloads == [] {
        files := files - {slug};
      } else {
        files := files[slug := Index(keptTexts, keptPayloads)];
      }
    }
  }
}
