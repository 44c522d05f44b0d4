/** The pipeline after the two searches (retrieval/hybrid.py, `retrieve`): access filter, fusion,
    reranking, confidence gate, diversity selection, tagging. The searches' hits, the reranker and
    the tokenisation are inputs. */
module Retrieval {
  import opened Options
  import opened PyText
  import opened Sorting
  import opened Fusion
  import Mmr

  datatype Candidate = Candidate(hit: Hit, rrf: real, rerank: real, rerankerUsed: bool)

  datatype Ranked = Ranked(candidate: Candidate, mode: string)

  datatype Outcome = BadMode(mode: string) | Results(hits: seq<Ranked>)

  const RERANK_CANDIDATES := 10
  const SPARSE := "sparse"
  const DENSE := "dense"
  const HYBRID := "hybrid"
  const FULL := "hybrid+rerank"

  /** The foreign parts: the reranker of the query (`None` when it raises), the confidence threshold,
      and `text.lower().split()` as a set. */
  datatype Setup = Setup(rerank: seq<string> -> Option<seq<real>>, threshold: real, tokens: string -> set<string>)

  /** `_filter_accessible` */
  function Accessible(hits: seq<Hit>, allowed: Option<set<string>>): seq<Hit> {
    if allowed.None? then hits else Keep(hits, allowed.value)
  }

  function Keep(hits: seq<Hit>, allowed: set<string>): seq<Hit> {
    if hits == [] then [] else (if hits[0].docId in allowed then [hits[0]] else []) + Keep(hits[1..], allowed)
  }

  function ByScore(hits: seq<Hit>): seq<Candidate> {
    seq(|hits|, i requires 0 <= i < |hits| => Candidate(hits[i], hits[i].score, hits[i].score, false))
  }

  function ByFusion(fused: seq<Fused>): seq<Candidate> {
    seq(|fused|, i requires 0 <= i < |fused| => Candidate(fused[i].hit, fused[i].rrf, fused[i].rrf, false))
  }

  /** The reranker's scores, paired off with the candidates; a candidate without one counts as 0. */
  function WithScores(fused: seq<Fused>, scores: seq<real>): seq<Candidate> {
    seq(|fused|, i requires 0 <= i < |fused| =>
        if i < |scores| then Candidate(fused[i].hit, fused[i].rrf, scores[i], true)
        else Candidate(fused[i].hit, fused[i].rrf, 0.0, false))
  }

  function Relevance(c: Candidate): real {
    c.rerank
  }

  function Passages(fused: seq<Fused>): seq<string> {
    seq(|fused|, i requires 0 <= i < |fused| => fused[i].hit.text)
  }

  function Reranked(fused: seq<Fused>, setup: Setup): seq<Candidate> {
    if |fused| <= 1 then ByFusion(fused)
    else
      match setup.rerank(Passages(fused))
      case Some(scores) => SortDesc(WithScores(fused, scores), Relevance)
      case None => ByFusion(fused)
  }

  function ViewOf(setup: Setup): Mmr.View<Candidate> {
    Mmr.View(Relevance, (c: Candidate) => setup.tokens(c.hit.text))
  }

  /** Everything after the filter, on accessible hits only. */
  function Rank(mode: string, bm25: seq<Hit>, dense: seq<Hit>, finalK: int, setup: Setup): seq<Candidate> {
    if mode == SPARSE then Slice(Slice(ByScore(bm25), finalK), finalK)
    else if mode == DENSE then Slice(Slice(ByScore(dense), finalK), finalK)
    else
      var fused := Slice(FusionOf(bm25, dense), RERANK_CANDIDATES);
      if mode == HYBRID then Slice(ByFusion(fused), finalK)
      else
        var candidates := Reranked(fused, setup);
        if candidates == [] || candidates[0].rerank < setup.threshold then []
        else Mmr.Select(candidates, finalK, 0.5, ViewOf(setup))
  }

  predicate IsMode(mode: string) {
    mode == SPARSE || mode == DENSE || mode == HYBRID || mode == FULL
  }

  function Tag(cs: seq<Candidate>, mode: string): seq<Ranked> {
    seq(|cs|, i requires 0 <= i < |cs| => Ranked(cs[i], mode))
  }

  function Retrieved(mode: string, bm25: seq<Hit>, dense: seq<Hit>, allowed: Option<set<string>>, finalK: int,
                     setup: Setup): Outcome {
    if !IsMode(mode) then BadMode(mode)
    else Results(Tag(Rank(mode, Accessible(bm25, allowed), Accessible(dense, allowed), finalK, setup), mode))
  }

  lemma KeepSnoc(hits: seq<Hit>, hit: Hit, allowed: set<string>)
    ensures Keep(hits + [hit], allowed) == Keep(hits, allowed) + if hit.docId in allowed then [hit] else []
  {
    KeepConcat(hits, [hit], allowed);
  }

  lemma {:induction false} KeepConcat(a: seq<Hit>, b: seq<Hit>, allowed: set<string>)
    ensures Keep(a + b, allowed) == Keep(a, allowed) + Keep(b, allowed)
  {
    if a == [] {
      assert a + b == b;
    } else {
      assert (a + b)[0] == a[0] && (a + b)[1..] == a[1..] + b;
      KeepConcat(a[1..], b, allowed);
      Associative(if a[0].docId in allowed then [a[0]] else [], Keep(a[1..], allowed), Keep(b, allowed));
    }
  }

  // ---------------------------------------------------------------- access

  lemma {:induction false} KeepIsAllowed(hits: seq<Hit>, allowed: set<string>)
    ensures forall h :: h in Keep(hits, allowed) <==> h in hits && h.docId in allowed
  {
    if hits != [] {
      KeepIsAllowed(hits[1..], allowed);
      assert hits == [hits[0]] + hits[1..];
    }
  }

  ghost predicate Among(cs: seq<Candidate>, hits: seq<Hit>) {
    forall i :: 0 <= i < |cs| ==> cs[i].hit in hits
  }

  lemma FusedAmong(bm25: seq<Hit>, dense: seq<Hit>)
    ensures forall i :: 0 <= i < |FusionOf(bm25, dense)| ==> FusionOf(bm25, dense)[i].hit in bm25 + dense
  {
    forall i: nat | i < |FusionOf(bm25, dense)| ensures FusionOf(bm25, dense)[i].hit in bm25 + dense {
      FusedEntry(bm25, dense, i);
    }
  }

  lemma MultisetElement<T>(s: seq<T>, t: seq<T>, i: nat) returns (j: nat)
    requires i < |s| && multiset(s) <= multiset(t)
    ensures j < |t| && t[j] == s[i]
  {
    assert s[i] in multiset(s);
    assert s[i] in multiset(t);
    j :| 0 <= j < |t| && t[j] == s[i];
  }

  lemma RerankedAmong(fused: seq<Fused>, setup: Setup, hits: seq<Hit>)
    requires forall i :: 0 <= i < |fused| ==> fused[i].hit in hits
    ensures Among(Reranked(fused, setup), hits)
  {
    if |fused| > 1 && setup.rerank(Passages(fused)).Some? {
      var scored := WithScores(fused, setup.rerank(Passages(fused)).value);
      forall i: nat | i < |SortDesc(scored, Relevance)| ensures SortDesc(scored, Relevance)[i].hit in hits {
        var j := SortedElement(scored, Relevance, i);
      }
    }
  }

  lemma BestFusedAmong(bm25: seq<Hit>, dense: seq<Hit>)
    ensures var fused := Slice(FusionOf(bm25, dense), RERANK_CANDIDATES);
            forall i :: 0 <= i < |fused| ==> fused[i].hit in bm25 + dense
  {
    hide FusionOf;
    FusedAmong(bm25, dense);
  }

  lemma SliceAmong(cs: seq<Candidate>, k: int, hits: seq<Hit>)
    requires Among(cs, hits)
    ensures Among(Slice(cs, k), hits)
  {
  }

  lemma ScoredAmong(scored: seq<Hit>, hits: seq<Hit>)
    requires forall h :: h in scored ==> h in hits
    ensures Among(ByScore(scored), hits)
  {
  }

  /** Ranking invents nothing: every candidate it returns is one of the hits it was given. */
  lemma RankAmong(mode: string, bm25: seq<Hit>, dense: seq<Hit>, finalK: int, setup: Setup)
    requires IsMode(mode)
    ensures Among(Rank(mode, bm25, dense, finalK, setup), bm25 + dense)
  {
    hide Slice, FusionOf, ByScore, ByFusion, Reranked, Mmr.Select, Among;
    var hits := bm25 + dense;
    if mode == SPARSE || mode == DENSE {
      var scored := ByScore(if mode == SPARSE then bm25 else dense);
      ScoredAmong(if mode == SPARSE then bm25 else dense, hits);
      SliceAmong(scored, finalK, hits);
      SliceAmong(Slice(scored, finalK), finalK, hits);
    } else {
      var fused := Slice(FusionOf(bm25, dense), RERANK_CANDIDATES);
      BestFusedAmong(bm25, dense);
      ByFusionAmong(fused, hits);
      SliceAmong(ByFusion(fused), finalK, hits);
      RerankedAmong(fused, setup, hits);
      SelectedAmong(Reranked(fused, setup), finalK, setup, hits);
      NoneAmong(hits);
    }
  }

  lemma ByFusionAmong(fused: seq<Fused>, hits: seq<Hit>)
    requires forall i :: 0 <= i < |fused| ==> fused[i].hit in hits
    ensures Among(ByFusion(fused), hits)
  {
  }

  lemma NoneAmong(hits: seq<Hit>)
    ensures Among([], hits)
  {
  }

  lemma SelectedAmong(candidates: seq<Candidate>, finalK: int, setup: Setup, hits: seq<Hit>)
    requires Among(candidates, hits)
    ensures Among(Mmr.Select(candidates, finalK, 0.5, ViewOf(setup)), hits)
  {
    var selected := Mmr.Select(candidates, finalK, 0.5, ViewOf(setup));
    if finalK >= 0 {
      Mmr.SelectsKCandidates(candidates, finalK, 0.5, ViewOf(setup));
      forall i: nat | i < |selected| ensures selected[i].hit in hits {
        var j := MultisetElement(selected, candidates, i);
      }
    }
  }

  /** In every mode, every result is a hit of one of the searches, and its document is accessible. */
  lemma ResultsAreAccessible(mode: string, bm25: seq<Hit>, dense: seq<Hit>, allowed: Option<set<string>>, finalK: int,
                             setup: Setup, i: nat)
    requires IsMode(mode) && i < |Retrieved(mode, bm25, dense, allowed, finalK, setup).hits|
    ensures var hit := Retrieved(mode, bm25, dense, allowed, finalK, setup).hits[i].candidate.hit;
            && hit in bm25 + dense
            && (allowed.Some? ==> hit.docId in allowed.value)
  {
    RankAmong(mode, Accessible(bm25, allowed), Accessible(dense, allowed), finalK, setup);
    if allowed.Some? {
      KeepIsAllowed(bm25, allowed.value);
      KeepIsAllowed(dense, allowed.value);
    }
  }

  /** Non-interference: in every mode the outcome depends on the hits only through the accessible
      ones; hits of other documents may be anything, anywhere in the lists. */
  lemma HiddenHitsDoNotInterfere(mode: string, bm25: seq<Hit>, dense: seq<Hit>, bm25': seq<Hit>, dense': seq<Hit>,
                                 allowed: set<string>, finalK: int, setup: Setup)
    requires Keep(bm25, allowed) == Keep(bm25', allowed) && Keep(dense, allowed) == Keep(dense', allowed)
    ensures Retrieved(mode, bm25, dense, Some(allowed), finalK, setup)
         == Retrieved(mode, bm25', dense', Some(allowed), finalK, setup)
  {
  }

  /** In particular, inserting a hit of an inaccessible document into either list changes nothing. */
  lemma InsertedHiddenHit(mode: string, before: seq<Hit>, after: seq<Hit>, hidden: Hit, dense: seq<Hit>,
                          allowed: set<string>, finalK: int, setup: Setup)
    requires hidden.docId !in allowed
    ensures Retrieved(mode, before + [hidden] + after, dense, Some(allowed), finalK, setup)
         == Retrieved(mode, before + after, dense, Some(allowed), finalK, setup)
    ensures Retrieved(mode, dense, before + [hidden] + after, Some(allowed), finalK, setup)
         == Retrieved(mode, dense, before + after, Some(allowed), finalK, setup)
  {
    hide Rank, Keep;
    KeepConcat(before + [hidden], after, allowed);
    KeepSnoc(before, hidden, allowed);
    KeepConcat(before, after, allowed);
    assert Keep(before + [hidden], allowed) == Keep(before, allowed);
    assert Keep(before + [hidden] + after, allowed) == Keep(before + after, allowed);
    HiddenHitsDoNotInterfere(mode, before + [hidden] + after, dense, before + after, dense, allowed, finalK, setup);
    HiddenHitsDoNotInterfere(mode, dense, before + [hidden] + after, dense, before + after, allowed, finalK, setup);
  }

  // ---------------------------------------------------------------- size and order

  lemma RerankedLength(fused: seq<Fused>, setup: Setup)
    ensures |Reranked(fused, setup)| == |fused|
  {
    if |fused| > 1 && setup.rerank(Passages(fused)).Some? {
      SortFacts(WithScores(fused, setup.rerank(Passages(fused)).value), Relevance);
    }
  }

  /** At most final_k results, and in the fused modes at most ten. */
  lemma AtMostFinalK(mode: string, bm25: seq<Hit>, dense: seq<Hit>, finalK: nat, setup: Setup)
    requires IsMode(mode)
    ensures |Rank(mode, bm25, dense, finalK, setup)| <= finalK
    ensures mode == HYBRID || mode == FULL ==> |Rank(mode, bm25, dense, finalK, setup)| <= RERANK_CANDIDATES
  {
    if mode == FULL {
      var fused := Slice(FusionOf(bm25, dense), RERANK_CANDIDATES);
      RerankedLength(fused, setup);
      Mmr.SelectsKCandidates(Reranked(fused, setup), finalK, 0.5, ViewOf(setup));
    }
  }

  /** In the full pipeline every pick is within one unit of relevance of the best still possible: at
      lambda = 1/2 the slack is 1. */
  lemma FullModeNearOptimal(bm25: seq<Hit>, dense: seq<Hit>, finalK: nat, setup: Setup, i: nat, r: real)
    requires Rank(FULL, bm25, dense, finalK, setup) != []
    requires var candidates := Reranked(Slice(FusionOf(bm25, dense), RERANK_CANDIDATES), setup);
             i < finalK < |candidates| && Mmr.CountAtLeast(candidates, r, ViewOf(setup)) >= i + 1
    ensures i < |Rank(FULL, bm25, dense, finalK, setup)|
    ensures Rank(FULL, bm25, dense, finalK, setup)[i].rerank >= r - 1.0
  {
    var candidates := Reranked(Slice(FusionOf(bm25, dense), RERANK_CANDIDATES), setup);
    Mmr.SelectionNearOptimal(candidates, finalK, 0.5, ViewOf(setup), i, r);
    assert Mmr.Slack(0.5) == 1.0;
  }
}
