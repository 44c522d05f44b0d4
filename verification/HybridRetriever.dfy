/** `HybridRetriever.retrieve` (retrieval/hybrid.py), from the hits of the two searches on. */
module HybridRetriever {
  import opened Options
  import opened PyText
  import opened Fusion
  import opened Retrieval
  import opened RetrievalLaws
  import Mmr

  /** What the outcome is in the mode that was asked for. */
  lemma OutcomeLaws(mode: string, bm25: seq<Hit>, dense: seq<Hit>, allowed: Option<set<string>>, finalK: int,
                    setup: Setup)
    ensures var r := Retrieved(mode, bm25, dense, allowed, finalK, setup);
            && (r == BadMode(mode) <==> mode !in ["sparse", "dense", "hybrid", "hybrid+rerank"])
            && (mode == "sparse" ==> SingleSearchResult(r, Accessible(bm25, allowed), finalK, mode))
            && (mode == "dense" ==> SingleSearchResult(r, Accessible(dense, allowed), finalK, mode))
            && (mode == "hybrid" ==> HybridResult(r, Best(bm25, dense, allowed), finalK))
            && (mode == "hybrid+rerank" ==>
                  && FullOutcome(r, Best(bm25, dense, allowed), finalK, setup)
                  && AnswersIff(r, Best(bm25, dense, allowed), finalK, setup))
  {
    hide *;
    OtherModesRejected(mode, bm25, dense, allowed, finalK, setup);
    if mode == "sparse" || mode == "dense" {
      SingleSearchModes(mode, bm25, dense, allowed, finalK, setup);
    } else if mode == "hybrid" {
      HybridMode(bm25, dense, allowed, finalK, setup);
    } else if mode == "hybrid+rerank" {
      FullMode(bm25, dense, allowed, finalK, setup);
      FullModeAnswersIff(bm25, dense, allowed, finalK, setup);
    }
  }

  lemma NothingScored(hits: seq<Hit>, finalK: int)
    requires hits == []
    ensures Slice(Slice(ByScore(hits), finalK), finalK) == []
  {
  }

  lemma NothingFound(mode: string, finalK: int, setup: Setup)
    requires mode == HYBRID || mode == FULL
    ensures Rank(mode, [], [], finalK, setup) == []
  {
    var none: seq<Hit> := [];
    assert none + none == [];
    assert FusionOf(none, none) == [];
  }

  /** `retrieve`: what it returns, once as specified and once by what the caller sees. */
  method Retrieve(mode: string, bm25Found: seq<Hit>, denseFound: seq<Hit>, allowed: Option<set<string>>, finalK: int,
                  setup: Setup) returns (r: Outcome)
    ensures r == Retrieved(mode, bm25Found, denseFound, allowed, finalK, setup)
    ensures r == BadMode(mode) <==> mode !in ["sparse", "dense", "hybrid", "hybrid+rerank"]
    ensures mode == "sparse" ==> SingleSearchResult(r, Accessible(bm25Found, allowed), finalK, mode)
    ensures mode == "dense" ==> SingleSearchResult(r, Accessible(denseFound, allowed), finalK, mode)
    ensures mode == "hybrid" ==> HybridResult(r, Best(bm25Found, denseFound, allowed), finalK)
    ensures mode == "hybrid+rerank" ==>
              && FullOutcome(r, Best(bm25Found, denseFound, allowed), finalK, setup)
              && AnswersIff(r, Best(bm25Found, denseFound, allowed), finalK, setup)
  {
    hide SingleSearchResult, HybridResult, FullOutcome, AnswersIff, Best;
    OutcomeLaws(mode, bm25Found, denseFound, allowed, finalK, setup);
    hide FusionOf, Reranked, Mmr.Select, ByScore, ByFusion, Keep;
    if !IsMode(mode) {
      return BadMode(mode);
    }
    var results: seq<Candidate>;
    if mode == SPARSE || mode == DENSE {
      var hits := Accessible(if mode == SPARSE then bm25Found else denseFound, allowed);
      if hits == [] {
        NothingScored(hits, finalK);
        return Results([]);
      }
      results := Slice(Slice(ByScore(hits), finalK), finalK);
    } else {
      var bm25, dense := Accessible(bm25Found, allowed), Accessible(denseFound, allowed);
      if bm25 == [] && dense == [] {
        NothingFound(mode, finalK, setup);
        return Results([]);
      }
      var fused := RrfFusion(bm25, dense);
      var best := Slice(fused, RERANK_CANDIDATES);
      if mode == FULL {
        var candidates := Reranked(best, setup);
        if candidates == [] || candidates[0].rerank < setup.threshold {
          return Results([]);
        }
        results := Mmr.MmrSelect(candidates, finalK, 0.5, ViewOf(setup));
      } else {
        results := Slice(ByFusion(best), finalK);
      }
    }
    var tagged: seq<Ranked> := [];
    for i := 0 to |results|
      invariant tagged == Tag(results[..i], mode)
    {
      tagged := tagged + [Ranked(results[i], mode)];
    }
    assert results[..|results|] == results;
    r := Results(tagged);
  }
}
