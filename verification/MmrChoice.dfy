/** What the diversity selection chooses (retrieval/hybrid.py, `_mmr`), said without its loop: which
    candidate comes next, given those already chosen, and what a similar candidate loses. */
module MmrChoice {
  import opened Mmr

  // ---------------------------------------------------------------- similarity

  /** The similarity is the shared part of all tokens of the two texts: 0 exactly for texts that share
      none, 1 exactly for texts with the same tokens. */
  lemma JaccardMeaning(a: set<string>, b: set<string>)
    ensures a + b != {} ==> Jaccard(a, b) * |a + b| as real == |a * b| as real
    ensures Jaccard(a, b) == 0.0 <==> a !! b
    ensures Jaccard(a, b) == 1.0 <==> a == b && a != {}
  {
    SharedTokens(a, b);
    var both, any := |a * b|, |a + b|;
    if any >= 1 {
      Quotient(both, any);
    }
  }

  lemma SharedTokens(a: set<string>, b: set<string>)
    ensures |a * b| == 0 <==> a !! b
    ensures |a * b| == |a + b| <==> a == b
    ensures |a + b| == 0 <==> a == {} && b == {}
  {
    var both, any := a * b, a + b;
    assert any == both + (any - both);
    if |both| == |any| {
      assert |any - both| == 0;
      assert a == both == b;
    }
  }

  lemma Quotient(n: nat, d: nat)
    requires d >= 1
    ensures n as real / d as real * d as real == n as real
    ensures n as real / d as real == 0.0 <==> n == 0
    ensures n as real / d as real == 1.0 <==> n == d
  {
  }

  function Similarity<T>(c: T, d: T, view: View<T>): real {
    Jaccard(view.tokens(c), view.tokens(d))
  }

  /** `m` is the similarity of `c` to the chosen candidate that it is most similar to. */
  ghost predicate IsHighest<T>(c: T, chosen: seq<T>, view: View<T>, m: real) {
    && (forall j :: 0 <= j < |chosen| ==> Similarity(c, chosen[j], view) <= m)
    && exists j :: 0 <= j < |chosen| && Similarity(c, chosen[j], view) == m
  }

  lemma {:induction false} MaxSimilarityIsHighest<T>(c: T, chosen: seq<T>, view: View<T>)
    requires chosen != []
    ensures IsHighest(c, chosen, view, MaxSimilarity(c, chosen, view))
  {
    var last := |chosen| - 1;
    if last > 0 {
      MaxSimilarityIsHighest(c, chosen[..last], view);
      HighestOfMore(c, chosen, view, MaxSimilarity(c, chosen[..last], view));
    } else {
      assert Similarity(c, chosen[0], view) == MaxSimilarity(c, chosen, view);
    }
  }

  lemma HighestOfMore<T>(c: T, chosen: seq<T>, view: View<T>, m: real)
    requires |chosen| > 1 && IsHighest(c, chosen[..|chosen| - 1], view, m)
    ensures IsHighest(c, chosen, view, Max(m, Similarity(c, chosen[|chosen| - 1], view)))
  {
    hide Similarity;
    var last := |chosen| - 1;
    var j :| 0 <= j < last && Similarity(c, chosen[..last][j], view) == m;
    assert Similarity(c, chosen[j], view) == m;
    forall i | 0 <= i < last ensures Similarity(c, chosen[i], view) <= m {
      assert chosen[..last][i] == chosen[i];
    }
  }

  lemma HighestIsUnique<T>(c: T, chosen: seq<T>, view: View<T>, m: real)
    requires chosen != [] && IsHighest(c, chosen, view, m)
    ensures m == MaxSimilarity(c, chosen, view)
  {
    hide Similarity, MaxSimilarity;
    MaxSimilarityIsHighest(c, chosen, view);
  }

  // ---------------------------------------------------------------- the choice

  /** `c` is at least as good a next choice as `d`: more relevant if nothing is chosen yet, and otherwise
      by lambda times the relevance less (1 - lambda) times the highest similarity. */
  ghost predicate AtLeast<T>(c: T, d: T, chosen: seq<T>, weight: real, view: View<T>) {
    if chosen == [] then view.relevance(c) >= view.relevance(d)
    else forall m, n :: IsHighest(c, chosen, view, m) && IsHighest(d, chosen, view, n) ==>
                          weight * view.relevance(c) - (1.0 - weight) * m
                          >= weight * view.relevance(d) - (1.0 - weight) * n
  }

  /** `c` is a better next choice than `d`. */
  ghost predicate Better<T>(c: T, d: T, chosen: seq<T>, weight: real, view: View<T>) {
    !AtLeast(d, c, chosen, weight, view)
  }

  lemma ScoresCompare<T>(c: T, d: T, chosen: seq<T>, weight: real, view: View<T>)
    ensures AtLeast(c, d, chosen, weight, view)
       <==> MmrScore(c, chosen, weight, view) >= MmrScore(d, chosen, weight, view)
  {
    if chosen == [] {
    } else {
      hide AtLeast, MmrScore;
      LaterScoresCompare(c, d, chosen, weight, view);
    }
  }

  lemma LaterScoresCompare<T>(c: T, d: T, chosen: seq<T>, weight: real, view: View<T>)
    requires chosen != []
    ensures AtLeast(c, d, chosen, weight, view)
       <==> MmrScore(c, chosen, weight, view) >= MmrScore(d, chosen, weight, view)
  {
    hide MaxSimilarity, IsHighest, AtLeast, MmrScore, Blend;
    OnlyHighest(c, chosen, view);
    OnlyHighest(d, chosen, view);
    AtLeastIs(c, d, chosen, weight, view, MaxSimilarity(c, chosen, view), MaxSimilarity(d, chosen, view));
    ScoreIs(c, chosen, weight, view);
    ScoreIs(d, chosen, weight, view);
  }

  lemma ScoreIs<T>(c: T, chosen: seq<T>, weight: real, view: View<T>)
    requires chosen != []
    ensures MmrScore(c, chosen, weight, view)
         == weight * view.relevance(c) - (1.0 - weight) * MaxSimilarity(c, chosen, view)
  {
    hide MaxSimilarity;
  }

  lemma OnlyHighest<T>(c: T, chosen: seq<T>, view: View<T>)
    requires chosen != []
    ensures forall m :: IsHighest(c, chosen, view, m) <==> m == MaxSimilarity(c, chosen, view)
  {
    MaxSimilarityIsHighest(c, chosen, view);
    hide MaxSimilarity, IsHighest;
    forall m | IsHighest(c, chosen, view, m) ensures m == MaxSimilarity(c, chosen, view) {
      HighestIsUnique(c, chosen, view, m);
    }
  }

  lemma AtLeastIs<T>(c: T, d: T, chosen: seq<T>, weight: real, view: View<T>, m: real, n: real)
    requires chosen != []
    requires forall x :: IsHighest(c, chosen, view, x) <==> x == m
    requires forall x :: IsHighest(d, chosen, view, x) <==> x == n
    ensures AtLeast(c, d, chosen, weight, view)
       <==> weight * view.relevance(c) - (1.0 - weight) * m >= weight * view.relevance(d) - (1.0 - weight) * n
  {
    hide IsHighest;
    assert IsHighest(c, chosen, view, m) && IsHighest(d, chosen, view, n);
  }

  /** Place `p` is chosen after the places in `taken`: no place left is better, and none before it is as
      good. */
  ghost predicate ChosenNext<T>(candidates: seq<T>, taken: seq<int>, chosen: seq<T>, p: int, weight: real,
                                view: View<T>)
  {
    && 0 <= p < |candidates| && p !in taken
    && forall q :: 0 <= q < |candidates| && q !in taken ==>
                     && AtLeast(candidates[p], candidates[q], chosen, weight, view)
                     && (q < p ==> Better(candidates[p], candidates[q], chosen, weight, view))
  }

  /** The selection takes the candidates at the places `at`, each one the next choice after those before. */
  ghost predicate IsGreedy<T>(candidates: seq<T>, selected: seq<T>, at: seq<int>, weight: real, view: View<T>) {
    && |at| == |selected|
    && (forall i :: 0 <= i < |at| ==> 0 <= at[i] < |candidates| && selected[i] == candidates[at[i]])
    && (forall i :: 0 <= i < |at| ==> ChosenNext(candidates, at[..i], selected[..i], at[i], weight, view))
  }

  /** The loop's two lists, by the places that their elements have in the candidates. */
  ghost predicate Places<T>(candidates: seq<T>, at: seq<int>, remaining: seq<T>, rest: seq<int>) {
    && |rest| == |remaining|
    && (forall i :: 0 <= i < |rest| ==> 0 <= rest[i] < |candidates| && remaining[i] == candidates[rest[i]])
    && (forall i, j :: 0 <= i < j < |rest| ==> rest[i] < rest[j])
    && (forall p :: 0 <= p < |candidates| ==> (p in rest <==> p !in at))
  }

  lemma PlacesDrop<T>(candidates: seq<T>, at: seq<int>, remaining: seq<T>, rest: seq<int>, j: nat)
    requires Places(candidates, at, remaining, rest) && j < |rest|
    ensures Places(candidates, at + [rest[j]], Drop(remaining, j), Drop(rest, j))
  {
    var fewer := Drop(rest, j);
    forall p | 0 <= p < |candidates| ensures p in fewer <==> p !in at + [rest[j]] {
      if p in rest && p != rest[j] {
        var i :| 0 <= i < |rest| && rest[i] == p;
        assert fewer[if i < j then i else i - 1] == p;
      }
    }
  }

  lemma BestIsNext<T>(candidates: seq<T>, selected: seq<T>, at: seq<int>, remaining: seq<T>, rest: seq<int>,
                      weight: real, view: View<T>, j: nat)
    requires Places(candidates, at, remaining, rest) && FirstBest(remaining, selected, weight, view, j)
    ensures ChosenNext(candidates, at, selected, rest[j], weight, view)
  {
    hide MmrScore, AtLeast;
    var p := rest[j];
    assert p in rest;
    forall q | 0 <= q < |candidates| && q !in at
      ensures AtLeast(candidates[p], candidates[q], selected, weight, view)
      ensures q < p ==> Better(candidates[p], candidates[q], selected, weight, view)
    {
      var i :| 0 <= i < |rest| && rest[i] == q;
      ScoresCompare(candidates[p], candidates[q], selected, weight, view);
      ScoresCompare(candidates[q], candidates[p], selected, weight, view);
      assert remaining[i] == candidates[q] && remaining[j] == candidates[p];
    }
  }

  lemma GreedyGrows<T>(candidates: seq<T>, selected: seq<T>, at: seq<int>, p: int, weight: real, view: View<T>)
    requires IsGreedy(candidates, selected, at, weight, view)
    requires ChosenNext(candidates, at, selected, p, weight, view)
    ensures IsGreedy(candidates, selected + [candidates[p]], at + [p], weight, view)
  {
    var longer, more := selected + [candidates[p]], at + [p];
    hide ChosenNext;
    forall i | 0 <= i < |more| ensures ChosenNext(candidates, more[..i], longer[..i], more[i], weight, view) {
      assert more[..i] == at[..i] && longer[..i] == selected[..i];
      assert i == |at| ==> at[..i] == at && selected[..i] == selected;
    }
  }

  lemma {:induction false} SelectFromIsGreedy<T>(candidates: seq<T>, selected: seq<T>, at: seq<int>,
                                                 remaining: seq<T>, rest: seq<int>, k: int, weight: real,
                                                 view: View<T>)
    requires IsGreedy(candidates, selected, at, weight, view) && Places(candidates, at, remaining, rest)
    ensures exists all: seq<int> ::
              IsGreedy(candidates, SelectFrom(selected, remaining, k, weight, view), all, weight, view)
    decreases |remaining|
  {
    if |selected| >= k || remaining == [] {
      assert IsGreedy(candidates, SelectFrom(selected, remaining, k, weight, view), at, weight, view);
    } else {
      var j := BestIndex(remaining, selected, weight, view);
      BestIsNext(candidates, selected, at, remaining, rest, weight, view, j);
      hide IsGreedy, ChosenNext, FirstBest;
      GreedyGrows(candidates, selected, at, rest[j], weight, view);
      PlacesDrop(candidates, at, remaining, rest, j);
      hide Places;
      var longer, fewer := selected + [remaining[j]], Drop(remaining, j);
      SelectFromIsGreedy(candidates, longer, at + [rest[j]], fewer, Drop(rest, j), k, weight, view);
      assert SelectFrom(selected, remaining, k, weight, view) == SelectFrom(longer, fewer, k, weight, view);
    }
  }

  /** Whatever lambda is, the selection from more than k candidates takes k of them at different places,
      the most relevant first and then always a next choice; of equally good ones the first. */
  lemma SelectionIsGreedy<T>(candidates: seq<T>, k: nat, weight: real, view: View<T>)
    requires k < |candidates|
    ensures |Select(candidates, k, weight, view)| == k
    ensures exists at: seq<int> :: IsGreedy(candidates, Select(candidates, k, weight, view), at, weight, view)
  {
    var n := |candidates|;
    var rest: seq<int> := seq(n, i requires 0 <= i < n => i);
    forall p | 0 <= p < n ensures p in rest {
      assert rest[p] == p;
    }
    assert Places(candidates, [], candidates, rest);
    SelectFromIsGreedy(candidates, [], [], candidates, rest, k, weight, view);
    SelectFromParts([], candidates, k, weight, view);
  }

  /** ... and that leaves it no choice: two selections of one length with this property are the same. */
  lemma {:induction false} GreedyIsUnique<T>(candidates: seq<T>, selected: seq<T>, at: seq<int>,
                                             other: seq<T>, otherAt: seq<int>, weight: real, view: View<T>)
    requires IsGreedy(candidates, selected, at, weight, view)
    requires IsGreedy(candidates, other, otherAt, weight, view) && |selected| == |other|
    ensures at == otherAt && selected == other
    decreases |at|
  {
    SameLength(candidates, selected, at, weight, view);
    SameLength(candidates, other, otherAt, weight, view);
    hide IsGreedy, ChosenNext;
    if at != [] {
      var n := |at| - 1;
      GreedyFront(candidates, selected, at, weight, view);
      GreedyFront(candidates, other, otherAt, weight, view);
      GreedyIsUnique(candidates, selected[..n], at[..n], other[..n], otherAt[..n], weight, view);
      OneNext(candidates, at[..n], selected[..n], at[n], otherAt[n], weight, view);
      SameSnoc(at, otherAt);
      SameSnoc(selected, other);
    }
  }

  lemma SameSnoc<T>(s: seq<T>, t: seq<T>)
    requires |s| == |t| > 0 && s[..|s| - 1] == t[..|t| - 1] && s[|s| - 1] == t[|t| - 1]
    ensures s == t
  {
    assert s == s[..|s| - 1] + [s[|s| - 1]];
    assert t == t[..|t| - 1] + [t[|t| - 1]];
  }

  lemma SameLength<T>(candidates: seq<T>, selected: seq<T>, at: seq<int>, weight: real, view: View<T>)
    requires IsGreedy(candidates, selected, at, weight, view)
    ensures |at| == |selected|
  {
    hide ChosenNext;
  }

  lemma GreedyFront<T>(candidates: seq<T>, selected: seq<T>, at: seq<int>, weight: real, view: View<T>)
    requires IsGreedy(candidates, selected, at, weight, view) && at != []
    ensures |at| == |selected|
    ensures var n := |at| - 1;
            && IsGreedy(candidates, selected[..n], at[..n], weight, view)
            && ChosenNext(candidates, at[..n], selected[..n], at[n], weight, view)
            && 0 <= at[n] < |candidates| && selected[n] == candidates[at[n]]
  {
    hide ChosenNext;
    var n := |at| - 1;
    forall i | 0 <= i < n
      ensures ChosenNext(candidates, at[..n][..i], selected[..n][..i], at[..n][i], weight, view)
    {
      assert at[..n][..i] == at[..i] && selected[..n][..i] == selected[..i];
    }
  }

  lemma OneNext<T>(candidates: seq<T>, taken: seq<int>, chosen: seq<T>, p: int, q: int, weight: real, view: View<T>)
    requires ChosenNext(candidates, taken, chosen, p, weight, view)
    requires ChosenNext(candidates, taken, chosen, q, weight, view)
    ensures p == q
  {
    hide AtLeast, MmrScore;
    ScoresCompare(candidates[p], candidates[q], chosen, weight, view);
    ScoresCompare(candidates[q], candidates[p], chosen, weight, view);
  }

  // ---------------------------------------------------------------- what similarity costs

  /** Of the candidates that are left and equally relevant, one with the lowest similarity to what is
      chosen comes next, unless lambda is 1. */
  lemma LessSimilarFirst<T>(candidates: seq<T>, taken: seq<int>, chosen: seq<T>, p: int, q: int, weight: real,
                            view: View<T>, m: real, n: real)
    requires weight < 1.0 && ChosenNext(candidates, taken, chosen, p, weight, view) && chosen != []
    requires 0 <= q < |candidates| && q !in taken
    requires view.relevance(candidates[p]) == view.relevance(candidates[q])
    requires IsHighest(candidates[p], chosen, view, m) && IsHighest(candidates[q], chosen, view, n)
    ensures m <= n
  {
    assert AtLeast(candidates[p], candidates[q], chosen, weight, view);
    hide IsHighest, ChosenNext, AtLeast;
    EquallyRelevant(candidates[p], candidates[q], chosen, weight, view, m, n);
  }

  lemma EquallyRelevant<T>(c: T, d: T, chosen: seq<T>, weight: real, view: View<T>, m: real, n: real)
    requires weight < 1.0 && chosen != [] && AtLeast(c, d, chosen, weight, view)
    requires view.relevance(c) == view.relevance(d)
    requires IsHighest(c, chosen, view, m) && IsHighest(d, chosen, view, n)
    ensures m <= n
  {
    hide IsHighest;
    Penalty(weight, view.relevance(c), m, n);
  }

  lemma Penalty(weight: real, relevance: real, m: real, n: real)
    requires weight < 1.0
    requires weight * relevance - (1.0 - weight) * m >= weight * relevance - (1.0 - weight) * n
    ensures m <= n
  {
    var x := 1.0 - weight;
    LessPenalty(weight * relevance, x * m, x * n, x, m, n);
  }

  lemma LessPenalty(r: real, a: real, b: real, x: real, m: real, n: real)
    requires x > 0.0 && a == x * m && b == x * n && r - a >= r - b
    ensures m <= n
  {
    if m > n {
      Positive(x, m - n);
    }
  }

  lemma Positive(x: real, y: real)
    requires x > 0.0 && y > 0.0
    ensures x * y > 0.0
  {
  }

  /** The candidate has the tokens of one that is already chosen. */
  ghost predicate IsCopy<T>(c: T, chosen: seq<T>, view: View<T>) {
    view.tokens(c) != {} && exists j :: 0 <= j < |chosen| && view.tokens(c) == view.tokens(chosen[j])
  }

  /** The candidate shares no token with any that is already chosen. */
  ghost predicate IsNew<T>(c: T, chosen: seq<T>, view: View<T>) {
    forall j :: 0 <= j < |chosen| ==> view.tokens(c) !! view.tokens(chosen[j])
  }

  lemma CopiesAndNewOnes<T>(c: T, chosen: seq<T>, view: View<T>)
    requires chosen != []
    ensures IsCopy(c, chosen, view) <==> IsHighest(c, chosen, view, 1.0)
    ensures IsNew(c, chosen, view) <==> IsHighest(c, chosen, view, 0.0)
  {
    hide Jaccard;
    forall j | 0 <= j < |chosen|
      ensures 0.0 <= Similarity(c, chosen[j], view) <= 1.0
      ensures Similarity(c, chosen[j], view) == 0.0 <==> view.tokens(c) !! view.tokens(chosen[j])
      ensures Similarity(c, chosen[j], view) == 1.0
         <==> view.tokens(c) == view.tokens(chosen[j]) && view.tokens(c) != {}
    {
      JaccardBounds(view.tokens(c), view.tokens(chosen[j]));
      JaccardMeaning(view.tokens(c), view.tokens(chosen[j]));
    }
    if IsNew(c, chosen, view) {
      assert Similarity(c, chosen[0], view) == 0.0;
    }
  }

  /** A copy of something chosen comes before something new exactly as far as it is more relevant: lambda
      times the difference makes up for 1 - lambda. */
  lemma CopyNeedsMoreRelevance<T>(copy: T, unlike: T, chosen: seq<T>, weight: real, view: View<T>)
    requires chosen != [] && IsCopy(copy, chosen, view) && IsNew(unlike, chosen, view)
    ensures AtLeast(copy, unlike, chosen, weight, view)
       <==> weight * (view.relevance(copy) - view.relevance(unlike)) >= 1.0 - weight
    ensures Better(copy, unlike, chosen, weight, view)
       <==> weight * (view.relevance(copy) - view.relevance(unlike)) > 1.0 - weight
  {
    CopiesAndNewOnes(copy, chosen, view);
    CopiesAndNewOnes(unlike, chosen, view);
    HighestIsUnique(copy, chosen, view, 1.0);
    HighestIsUnique(unlike, chosen, view, 0.0);
    ScoresCompare(copy, unlike, chosen, weight, view);
    ScoresCompare(unlike, copy, chosen, weight, view);
    hide MaxSimilarity, IsHighest, IsCopy, IsNew, AtLeast;
    var a, b := view.relevance(copy), view.relevance(unlike);
    assert weight * (a - b) == weight * a - weight * b;
  }
}
