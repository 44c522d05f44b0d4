/** What a query gets in each of the four modes (retrieval/hybrid.py, `retrieve`), said of the outcome. */
module RetrievalLaws {
  import opened Options
  import opened PyText
  import opened Sorting
  import opened Fusion
  import opened Retrieval
  import Mmr
  import MmrChoice

  // ---------------------------------------------------------------- the filter

  ghost predicate InScope(allowed: Option<set<string>>, hit: Hit) {
    allowed.Some? ==> hit.docId in allowed.value
  }

  function OfDocuments(allowed: set<string>): Hit -> bool {
    (hit: Hit) => hit.docId in allowed
  }

  lemma {:induction false} KeepFilters(hits: seq<Hit>, allowed: set<string>)
    ensures IsFiltered(Keep(hits, allowed), hits, OfDocuments(allowed))
    decreases |hits|
  {
    if hits == [] {
      FilteredNothing(OfDocuments(allowed));
    } else {
      var n := |hits| - 1;
      assert hits == hits[..n] + [hits[n]];
      KeepFilters(hits[..n], allowed);
      FilteredSnoc(Keep(hits[..n], allowed), hits[..n], OfDocuments(allowed), hits[n]);
      KeepSnoc(hits[..n], hits[n], allowed);
    }
  }

  /** The filter drops exactly the hits outside the scope, and keeps the others in their order. */
  lemma AccessibleFilters(hits: seq<Hit>, allowed: Option<set<string>>)
    ensures allowed.None? ==> Accessible(hits, allowed) == hits
    ensures allowed.Some? ==> IsFiltered(Accessible(hits, allowed), hits, OfDocuments(allowed.value))
    ensures Accessible(hits, allowed) == [] <==> forall i :: 0 <= i < |hits| ==> !InScope(allowed, hits[i])
  {
    if allowed.Some? {
      KeepFilters(hits, allowed.value);
      FilteredSome(Keep(hits, allowed.value), hits, OfDocuments(allowed.value));
      hide Keep, IsFiltered;
      forall i | 0 <= i < |hits| ensures OfDocuments(allowed.value)(hits[i]) <==> InScope(allowed, hits[i]) {
      }
    } else if hits != [] {
      assert InScope(allowed, hits[0]);
    }
  }

  // ---------------------------------------------------------------- the simple modes

  /** The length of `xs[:k]` for a list of `n`: a negative k takes from the end. */
  function CutLength(n: nat, k: int): nat {
    if k >= n then n else if k >= 0 then k else if n + k >= 0 then n + k else 0
  }

  lemma SliceIs<T>(s: seq<T>, k: int)
    ensures |Slice(s, k)| == CutLength(|s|, k) && Slice(s, k) == s[..CutLength(|s|, k)]
  {
  }

  /** The results are the first final_k hits that were found, in their order and with their scores. The list
      is cut twice, which shows only for a negative final_k. */
  predicate SingleSearchResult(r: Outcome, found: seq<Hit>, finalK: int, mode: string) {
    && r.Results? && |r.hits| == CutLength(CutLength(|found|, finalK), finalK)
    && forall i :: 0 <= i < |r.hits| ==>
         r.hits[i] == Ranked(Candidate(found[i], found[i].score, found[i].score, false), mode)
  }

  /** With one search, the results are its first final_k accessible hits. */
  lemma SingleSearchModes(mode: string, bm25: seq<Hit>, dense: seq<Hit>, allowed: Option<set<string>>, finalK: int,
                          setup: Setup)
    requires mode == "sparse" || mode == "dense"
    ensures var found := Accessible(if mode == "sparse" then bm25 else dense, allowed);
            SingleSearchResult(Retrieved(mode, bm25, dense, allowed, finalK, setup), found, finalK, mode)
  {
    var found := Accessible(if mode == "sparse" then bm25 else dense, allowed);
    hide Accessible;
    SliceIs(ByScore(found), finalK);
    SliceIs(Slice(ByScore(found), finalK), finalK);
  }

  /** The fused hits that go on to ranking: the ten best. */
  function Best(bm25: seq<Hit>, dense: seq<Hit>, allowed: Option<set<string>>): (best: seq<Fused>)
    ensures |best| <= 10
  {
    var fused := FusionOf(Accessible(bm25, allowed), Accessible(dense, allowed));
    if |fused| > 10 then fused[..10] else fused
  }

  predicate HybridResult(r: Outcome, best: seq<Fused>, finalK: int) {
    && r.Results? && |r.hits| == CutLength(|best|, finalK)
    && forall i :: 0 <= i < |r.hits| ==>
         r.hits[i] == Ranked(Candidate(best[i].hit, best[i].rrf, best[i].rrf, false), "hybrid")
  }

  /** Without reranking, the results are the first final_k of the ten best fused hits, in fused order. */
  lemma HybridMode(bm25: seq<Hit>, dense: seq<Hit>, allowed: Option<set<string>>, finalK: int, setup: Setup)
    ensures HybridResult(Retrieved("hybrid", bm25, dense, allowed, finalK, setup), Best(bm25, dense, allowed), finalK)
  {
    var best := Best(bm25, dense, allowed);
    BestIsSlice(bm25, dense, allowed);
    hide FusionOf, Accessible, Best;
    SliceIs(ByFusion(best), finalK);
  }

  lemma BestIsSlice(bm25: seq<Hit>, dense: seq<Hit>, allowed: Option<set<string>>)
    ensures Best(bm25, dense, allowed)
         == Slice(FusionOf(Accessible(bm25, allowed), Accessible(dense, allowed)), RERANK_CANDIDATES)
  {
    hide FusionOf, Accessible;
  }

  /** A mode is rejected exactly if it is none of the four. */
  lemma OtherModesRejected(mode: string, bm25: seq<Hit>, dense: seq<Hit>, allowed: Option<set<string>>, finalK: int,
                           setup: Setup)
    ensures Retrieved(mode, bm25, dense, allowed, finalK, setup) == BadMode(mode)
       <==> mode !in ["sparse", "dense", "hybrid", "hybrid+rerank"]
  {
    hide Rank, Accessible;
    if IsMode(mode) {
      assert mode in ["sparse", "dense", "hybrid", "hybrid+rerank"];
    }
  }

  // ---------------------------------------------------------------- the full pipeline

  function Texts(best: seq<Fused>): (texts: seq<string>)
    ensures |texts| == |best| && forall i :: 0 <= i < |best| ==> texts[i] == best[i].hit.text
  {
    seq(|best|, i requires 0 <= i < |best| => best[i].hit.text)
  }

  /** The reranker is asked about two or more passages, their texts in fused order, and answers. */
  predicate Answers(best: seq<Fused>, setup: Setup) {
    |best| >= 2 && setup.rerank(Texts(best)).Some?
  }

  function Answer(best: seq<Fused>, setup: Setup): seq<real>
    requires Answers(best, setup)
  {
    setup.rerank(Texts(best)).value
  }

  /** The score of each fused hit: the reranker's, 0 if it gave too few, and the fusion's without it. */
  function Scores(best: seq<Fused>, setup: Setup): (scores: seq<real>)
    ensures |scores| == |best|
  {
    seq(|best|, i requires 0 <= i < |best| =>
        if !Answers(best, setup) then best[i].rrf
        else if i < |Answer(best, setup)| then Answer(best, setup)[i] else 0.0)
  }

  predicate ScoredAs(c: Candidate, best: seq<Fused>, setup: Setup, p: int)
    requires 0 <= p < |best|
  {
    && c.hit == best[p].hit && c.rrf == best[p].rrf && c.rerank == Scores(best, setup)[p]
    && (c.rerankerUsed <==> Answers(best, setup) && p < |Answer(best, setup)|)
  }

  /** The candidates by falling score, those of equal score in fused order. */
  ghost predicate RankedBy(candidates: seq<Candidate>, best: seq<Fused>, setup: Setup, at: seq<int>) {
    && |candidates| == |best| == |at|
    && (forall i :: 0 <= i < |at| ==> 0 <= at[i] < |best| && ScoredAs(candidates[i], best, setup, at[i]))
    && (forall i, j :: 0 <= i < j < |at| ==> InOrder(candidates[i].rerank, at[i], candidates[j].rerank, at[j]))
  }

  lemma PassagesAre(best: seq<Fused>)
    ensures Passages(best) == Texts(best)
  {
  }

  lemma ScoresRanked(best: seq<Fused>, setup: Setup)
    requires Answers(best, setup)
    ensures exists at: seq<int> ::
              RankedBy(SortDesc(WithScores(best, Answer(best, setup)), Relevance), best, setup, at)
  {
    var scored := WithScores(best, Answer(best, setup));
    SortHasPlaces(scored, Relevance);
    var at :| SortedPlaces(scored, SortDesc(scored, Relevance), Relevance, at);
    var sorted := SortDesc(scored, Relevance);
    hide SortDesc;
    forall i | 0 <= i < |at| ensures 0 <= at[i] < |best| && ScoredAs(sorted[i], best, setup, at[i]) {
      assert sorted[i] == scored[at[i]];
    }
    assert RankedBy(sorted, best, setup, at);
  }

  lemma FusionRanked(best: seq<Fused>, setup: Setup)
    requires !Answers(best, setup) && Descending(best, Rrf)
    ensures exists at: seq<int> :: RankedBy(ByFusion(best), best, setup, at)
  {
    var at: seq<int> := seq(|best|, i requires 0 <= i < |best| => i);
    forall i, j | 0 <= i < j < |at| ensures InOrder(best[i].rrf, at[i], best[j].rrf, at[j]) {
      assert Rrf(best[i]) >= Rrf(best[j]);
    }
    assert RankedBy(ByFusion(best), best, setup, at);
  }

  lemma RerankedIsRanked(best: seq<Fused>, setup: Setup)
    requires Descending(best, Rrf)
    ensures exists at: seq<int> :: RankedBy(Reranked(best, setup), best, setup, at)
  {
    PassagesAre(best);
    hide RankedBy, Passages, Texts;
    if Answers(best, setup) {
      ScoresRanked(best, setup);
      assert Reranked(best, setup) == SortDesc(WithScores(best, Answer(best, setup)), Relevance);
    } else {
      FusionRanked(best, setup);
      assert Reranked(best, setup) == ByFusion(best);
    }
  }

  lemma BestDescends(bm25: seq<Hit>, dense: seq<Hit>, allowed: Option<set<string>>)
    ensures Descending(Best(bm25, dense, allowed), Rrf)
  {
    hide FusionOf, Accessible;
    FusionListsEachKeyOnce(Accessible(bm25, allowed), Accessible(dense, allowed));
  }

  /** How a view sees candidates: relevance is the score, similarity is that of the texts' tokens. */
  ghost predicate Sees(view: Mmr.View<Candidate>, setup: Setup) {
    forall c: Candidate :: view.relevance(c) == c.rerank && view.tokens(c) == setup.tokens(c.hit.text)
  }

  /** What is taken of the ranked candidates: all of them if final_k allows, and otherwise the greedy choice
      of final_k with lambda one half. */
  ghost predicate Taken(taken: seq<Candidate>, candidates: seq<Candidate>, finalK: int, setup: Setup) {
    if |candidates| <= finalK then taken == candidates
    else exists view: Mmr.View<Candidate>, at: seq<int> ::
           Sees(view, setup) && |taken| == (if finalK > 0 then finalK else 0)
           && MmrChoice.IsGreedy(candidates, taken, at, 0.5, view)
  }

  /** The candidates behind the results of an outcome. */
  function Candidates(hits: seq<Ranked>): (cs: seq<Candidate>)
    ensures |cs| == |hits|
    ensures forall i :: 0 <= i < |hits| ==> cs[i] == hits[i].candidate
  {
    seq(|hits|, i requires 0 <= i < |hits| => hits[i].candidate)
  }

  ghost predicate Confident(best: seq<Fused>, setup: Setup) {
    exists p :: 0 <= p < |best| && Scores(best, setup)[p] >= setup.threshold
  }

  /** What the full pipeline makes of the ten best: nothing unless one of them reaches the threshold, and
      then what is taken of their ranking. */
  ghost predicate FullResult(cs: seq<Candidate>, best: seq<Fused>, finalK: int, setup: Setup) {
    if !Confident(best, setup) then cs == []
    else exists candidates: seq<Candidate>, at: seq<int> ::
           RankedBy(candidates, best, setup, at) && Taken(cs, candidates, finalK, setup)
  }

  ghost predicate FullOutcome(r: Outcome, best: seq<Fused>, finalK: int, setup: Setup) {
    && r.Results? && (forall i :: 0 <= i < |r.hits| ==> r.hits[i].mode == "hybrid+rerank")
    && FullResult(Candidates(r.hits), best, finalK, setup)
  }

  lemma SelectIsTaken(candidates: seq<Candidate>, finalK: int, setup: Setup)
    ensures Taken(Mmr.Select(candidates, finalK, 0.5, ViewOf(setup)), candidates, finalK, setup)
  {
    var taken := Mmr.Select(candidates, finalK, 0.5, ViewOf(setup));
    if |candidates| > finalK {
      assert Sees(ViewOf(setup), setup);
      if finalK > 0 {
        MmrChoice.SelectionIsGreedy(candidates, finalK, 0.5, ViewOf(setup));
      } else {
        assert MmrChoice.IsGreedy(candidates, taken, [], 0.5, ViewOf(setup));
      }
    }
  }

  /** The first of the ranked candidates decides about all of them. */
  lemma FirstDecides(candidates: seq<Candidate>, best: seq<Fused>, setup: Setup, at: seq<int>)
    requires RankedBy(candidates, best, setup, at)
    ensures Confident(best, setup) <==> candidates != [] && candidates[0].rerank >= setup.threshold
  {
    hide Scores;
    if p :| 0 <= p < |best| && Scores(best, setup)[p] >= setup.threshold {
      var i := PlaceAt(at, |best|, p);
      assert ScoredAs(candidates[i], best, setup, p);
      assert i > 0 ==> InOrder(candidates[0].rerank, at[0], candidates[i].rerank, at[i]);
    }
    if candidates != [] {
      assert ScoredAs(candidates[0], best, setup, at[0]);
    }
  }

  /** Different places below `n`, `n` of them, are all places. */
  lemma PlaceAt(at: seq<int>, n: nat, p: int) returns (i: int)
    requires |at| == n && 0 <= p < n && forall i :: 0 <= i < n ==> 0 <= at[i] < n
    requires forall i, j :: 0 <= i < j < n ==> at[i] != at[j]
    ensures 0 <= i < n && at[i] == p
  {
    if p in at {
      i :| 0 <= i < n && at[i] == p;
    } else {
      Pigeonhole(at, n, p);
      assert false;
    }
  }

  lemma {:induction false} Pigeonhole(at: seq<int>, n: nat, p: int)
    requires 0 <= p < n && p !in at && forall i :: 0 <= i < |at| ==> 0 <= at[i] < n
    requires forall i, j :: 0 <= i < j < |at| ==> at[i] != at[j]
    ensures |at| < n
  {
    var used := set q | q in at;
    DistinctCount(at, used);
    assert used <= Below(n) - {p};
    SubsetCount(used, Below(n) - {p});
  }

  function Below(n: nat): (places: set<int>)
    ensures |places| == n && forall q :: q in places <==> 0 <= q < n
  {
    if n == 0 then {} else Below(n - 1) + {n - 1}
  }

  lemma {:induction false} DistinctCount(at: seq<int>, used: set<int>)
    requires forall q :: q in used <==> q in at
    requires forall i, j :: 0 <= i < j < |at| ==> at[i] != at[j]
    ensures |used| == |at|
    decreases |at|
  {
    if at == [] {
      forall q ensures q !in used {
        assert q !in at;
      }
    } else {
      var n := |at| - 1;
      assert forall q :: q in at <==> q in at[..n] || q == at[n];
      assert at[n] !in at[..n];
      DistinctCount(at[..n], used - {at[n]});
    }
  }

  lemma SubsetCount(a: set<int>, b: set<int>)
    requires a <= b
    ensures |a| <= |b|
  {
    assert b == a + (b - a);
  }

  /** The full pipeline, from the outcome alone. */
  lemma FullMode(bm25: seq<Hit>, dense: seq<Hit>, allowed: Option<set<string>>, finalK: int, setup: Setup)
    ensures FullOutcome(Retrieved("hybrid+rerank", bm25, dense, allowed, finalK, setup), Best(bm25, dense, allowed),
                        finalK, setup)
  {
    var best := Best(bm25, dense, allowed);
    BestIsSlice(bm25, dense, allowed);
    BestDescends(bm25, dense, allowed);
    hide Best, FusionOf, Accessible, Reranked, Mmr.Select, FullResult;
    var ranked := Rank("hybrid+rerank", Accessible(bm25, allowed), Accessible(dense, allowed), finalK, setup);
    RankIsResult(best, finalK, setup);
    var r := Retrieved("hybrid+rerank", bm25, dense, allowed, finalK, setup);
    assert Candidates(r.hits) == ranked;
  }

  lemma RankIsResult(best: seq<Fused>, finalK: int, setup: Setup)
    requires Descending(best, Rrf)
    ensures var candidates := Reranked(best, setup);
            FullResult(if candidates == [] || candidates[0].rerank < setup.threshold then []
                       else Mmr.Select(candidates, finalK, 0.5, ViewOf(setup)), best, finalK, setup)
  {
    var candidates := Reranked(best, setup);
    RerankedIsRanked(best, setup);
    var at :| RankedBy(candidates, best, setup, at);
    FirstDecides(candidates, best, setup, at);
    SelectIsTaken(candidates, finalK, setup);
  }

  predicate AnswersIff(r: Outcome, best: seq<Fused>, finalK: int, setup: Setup) {
    && r.Results?
    && (r.hits == [] <==> finalK <= 0 || forall p :: 0 <= p < |best| ==> Scores(best, setup)[p] < setup.threshold)
    && (r.hits != [] ==> |r.hits| == CutLength(|best|, finalK))
  }

  /** When the full pipeline answers at all: it returns nothing exactly if no accessible hit was found,
      final_k leaves nothing, or no score reaches the threshold; otherwise it returns final_k results, or
      all of the ten best if there are no more. */
  lemma FullModeAnswersIff(bm25: seq<Hit>, dense: seq<Hit>, allowed: Option<set<string>>, finalK: int, setup: Setup)
    ensures AnswersIff(Retrieved("hybrid+rerank", bm25, dense, allowed, finalK, setup), Best(bm25, dense, allowed),
                       finalK, setup)
    ensures Best(bm25, dense, allowed) == [] <==> Accessible(bm25, allowed) == [] && Accessible(dense, allowed) == []
  {
    FullMode(bm25, dense, allowed, finalK, setup);
    FusedNothing(Accessible(bm25, allowed), Accessible(dense, allowed));
    var best := Best(bm25, dense, allowed);
    var r := Retrieved("hybrid+rerank", bm25, dense, allowed, finalK, setup);
    hide Accessible, FusionOf, Retrieved, Scores;
    var cs := Candidates(r.hits);
    if Confident(best, setup) {
      var candidates: seq<Candidate>, at :|
        RankedBy(candidates, best, setup, at) && Taken(cs, candidates, finalK, setup);
      assert |candidates| > 0;
    }
  }

  lemma FusedNothing(bm25: seq<Hit>, dense: seq<Hit>)
    ensures FusionOf(bm25, dense) == [] <==> bm25 == [] && dense == []
  {
    var hits := bm25 + dense;
    if hits != [] {
      FusionListsEachKeyOnce(bm25, dense);
      assert Key(hits[0]) == Key(hits[0]);
      assert HasKey(hits, Key(hits[0]));
    } else {
      assert FusionOf(bm25, dense) == [];
    }
  }
}
