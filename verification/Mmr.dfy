/** Maximal marginal relevance (retrieval/hybrid.py, `_mmr`): a greedy choice of `k` candidates by
    lambda * relevance - (1 - lambda) * similarity to what is already chosen. */
module Mmr {

  /** How a candidate is scored: its relevance and the token set of its text. */
  datatype View<!T> = View(relevance: T -> real, tokens: T -> set<string>)

  function Max(a: real, b: real): real {
    if a >= b then a else b
  }

  /** Token overlap: |a & b| / max(|a | b|, 1) */
  function Jaccard(a: set<string>, b: set<string>): real {
    |a * b| as real / (if |a + b| < 1 then 1 else |a + b|) as real
  }

  function MaxSimilarity<T>(c: T, selected: seq<T>, view: View<T>): real
    requires selected != []
  {
    var last := |selected| - 1;
    var sim := Jaccard(view.tokens(c), view.tokens(selected[last]));
    if last == 0 then sim else Max(MaxSimilarity(c, selected[..last], view), sim)
  }

  /** lambda * relevance - (1 - lambda) * similarity */
  function Blend(weight: real, relevance: real, similarity: real): real {
    weight * relevance - (1.0 - weight) * similarity
  }

  function MmrScore<T>(c: T, selected: seq<T>, weight: real, view: View<T>): real {
    if selected == [] then view.relevance(c)
    else Blend(weight, view.relevance(c), MaxSimilarity(c, selected, view))
  }

  /** `max(remaining, key=...)`: the first candidate of highest score. */
  ghost predicate FirstBest<T>(remaining: seq<T>, selected: seq<T>, weight: real, view: View<T>, j: nat) {
    && j < |remaining|
    && (forall i :: 0 <= i < |remaining| ==>
          MmrScore(remaining[i], selected, weight, view) <= MmrScore(remaining[j], selected, weight, view))
    && (forall i :: 0 <= i < j ==>
          MmrScore(remaining[i], selected, weight, view) < MmrScore(remaining[j], selected, weight, view))
  }

  function BestIndex<T>(remaining: seq<T>, selected: seq<T>, weight: real, view: View<T>): (j: nat)
    requires remaining != []
    ensures FirstBest(remaining, selected, weight, view, j)
  {
    var last := |remaining| - 1;
    if last == 0 then 0
    else
      var j := BestIndex(remaining[..last], selected, weight, view);
      assert forall i :: 0 <= i < last ==> remaining[..last][i] == remaining[i];
      var best := MmrScore(remaining[j], selected, weight, view);
      if MmrScore(remaining[last], selected, weight, view) > best then last else j
  }

  function Drop<T>(s: seq<T>, j: nat): seq<T>
    requires j < |s|
  {
    s[..j] + s[j + 1..]
  }

  function SelectFrom<T>(selected: seq<T>, remaining: seq<T>, k: int, weight: real, view: View<T>): seq<T>
    decreases |remaining|
  {
    if |selected| >= k || remaining == [] then selected
    else
      var j := BestIndex(remaining, selected, weight, view);
      SelectFrom(selected + [remaining[j]], Drop(remaining, j), k, weight, view)
  }

  function Select<T>(candidates: seq<T>, k: int, weight: real, view: View<T>): seq<T> {
    if |candidates| <= k then candidates else SelectFrom([], candidates, k, weight, view)
  }

  /** Equal candidates have equal scores, so the first candidate equal to the best one is the best
      one itself: `remaining.remove(best)` removes the element that was chosen. */
  lemma FirstEqualIsBest<T>(remaining: seq<T>, selected: seq<T>, weight: real, view: View<T>, j: nat, i: nat)
    requires FirstBest(remaining, selected, weight, view, j) && i <= j
    requires remaining[i] == remaining[j]
    ensures i == j
  {
  }

  /** `_mmr` */
  method MmrSelect<T(==)>(candidates: seq<T>, k: int, weight: real, view: View<T>) returns (selected: seq<T>)
    ensures selected == Select(candidates, k, weight, view)
  {
    if |candidates| <= k {
      return candidates;
    }
    selected := [];
    var remaining := candidates;
    while |selected| < k && remaining != []
      invariant SelectFrom([], candidates, k, weight, view) == SelectFrom(selected, remaining, k, weight, view)
      decreases |remaining|
    {
      ghost var j := BestIndex(remaining, selected, weight, view);
      var best := remaining[BestIndex(remaining, selected, weight, view)];
      var i := 0;
      while remaining[i] != best
        invariant 0 <= i <= j
        decreases j - i
      {
        i := i + 1;
      }
      FirstEqualIsBest(remaining, selected, weight, view, j, i);
      selected := selected + [best];
      remaining := remaining[..i] + remaining[i + 1..];
    }
  }

  // ---------------------------------------------------------------- similarity bounds

  lemma JaccardBounds(a: set<string>, b: set<string>)
    ensures 0.0 <= Jaccard(a, b) <= 1.0
  {
    var both, any := a * b, a + b;
    assert any == both + (any - both);
    assert |both| <= |any|;
    Ratio(|both|, if |any| < 1 then 1 else |any|);
  }

  lemma Ratio(n: nat, d: nat)
    requires n <= d && d > 0
    ensures 0.0 <= n as real / d as real <= 1.0
  {
  }

  lemma {:induction false} SimilarityBounds<T>(c: T, selected: seq<T>, view: View<T>)
    requires selected != []
    ensures 0.0 <= MaxSimilarity(c, selected, view) <= 1.0
  {
    var last := |selected| - 1;
    JaccardBounds(view.tokens(c), view.tokens(selected[last]));
    if last > 0 {
      SimilarityBounds(c, selected[..last], view);
    }
  }

  // ---------------------------------------------------------------- what is selected

  lemma {:induction false} SelectFromParts<T>(selected: seq<T>, remaining: seq<T>, k: int, weight: real, view: View<T>)
    requires |selected| <= k <= |selected| + |remaining|
    ensures |SelectFrom(selected, remaining, k, weight, view)| == k
    ensures selected <= SelectFrom(selected, remaining, k, weight, view)
    ensures multiset(SelectFrom(selected, remaining, k, weight, view)) <= multiset(selected) + multiset(remaining)
    decreases |remaining|
  {
    if |selected| < k {
      var j := BestIndex(remaining, selected, weight, view);
      SelectFromParts(selected + [remaining[j]], Drop(remaining, j), k, weight, view);
      DropMultiset(remaining, j);
    }
  }

  lemma DropMultiset<T>(s: seq<T>, j: nat)
    requires j < |s|
    ensures multiset(s) == multiset(Drop(s, j)) + multiset{s[j]}
  {
    assert s == s[..j] + [s[j]] + s[j + 1..];
  }

  /** The selection consists of exactly k of the candidates (all, if there are no more), none taken
      more often than it occurs. */
  lemma SelectsKCandidates<T>(candidates: seq<T>, k: nat, weight: real, view: View<T>)
    ensures |Select(candidates, k, weight, view)| == if |candidates| <= k then |candidates| else k
    ensures multiset(Select(candidates, k, weight, view)) <= multiset(candidates)
  {
    if |candidates| > k {
      SelectFromParts([], candidates, k, weight, view);
    }
  }

  // ---------------------------------------------------------------- near-optimal relevance

  /** How many candidates have relevance `r` or more. The i-th best relevance is the largest `r`
      with a count of at least i. */
  function CountAtLeast<T>(s: seq<T>, r: real, view: View<T>): nat {
    if s == [] then 0 else (if view.relevance(s[0]) >= r then 1 else 0) + CountAtLeast(s[1..], r, view)
  }

  lemma {:induction false} CountConcat<T>(a: seq<T>, b: seq<T>, r: real, view: View<T>)
    ensures CountAtLeast(a + b, r, view) == CountAtLeast(a, r, view) + CountAtLeast(b, r, view)
  {
    if a == [] {
      assert a + b == b;
    } else {
      assert (a + b)[1..] == a[1..] + b;
      CountConcat(a[1..], b, r, view);
    }
  }

  lemma CountDrop<T>(s: seq<T>, j: nat, r: real, view: View<T>)
    requires j < |s|
    ensures CountAtLeast(s, r, view)
         == CountAtLeast(Drop(s, j), r, view) + if view.relevance(s[j]) >= r then 1 else 0
  {
    assert s == s[..j] + ([s[j]] + s[j + 1..]);
    CountConcat(s[..j], [s[j]] + s[j + 1..], r, view);
    CountConcat([s[j]], s[j + 1..], r, view);
    CountConcat(s[..j], s[j + 1..], r, view);
  }

  lemma {:induction false} CountBound<T>(s: seq<T>, r: real, view: View<T>)
    ensures CountAtLeast(s, r, view) <= |s|
  {
    if s != [] {
      CountBound(s[1..], r, view);
    }
  }

  lemma {:induction false} SomeAtLeast<T>(s: seq<T>, r: real, view: View<T>) returns (i: nat)
    requires CountAtLeast(s, r, view) > 0
    ensures i < |s| && view.relevance(s[i]) >= r
  {
    if view.relevance(s[0]) >= r {
      i := 0;
    } else {
      var j := SomeAtLeast(s[1..], r, view);
      i := j + 1;
    }
  }

  /** What diversity may cost: (1 - lambda) / lambda. */
  function Slack(weight: real): real
    requires weight > 0.0
  {
    (1.0 - weight) / weight
  }

  /** As long as some candidate of relevance r remains, the next pick is not much worse. */
  lemma PickIsNearOptimal<T>(remaining: seq<T>, selected: seq<T>, weight: real, view: View<T>, r: real)
    requires 0.0 < weight <= 1.0 && remaining != [] && CountAtLeast(remaining, r, view) > 0
    ensures view.relevance(remaining[BestIndex(remaining, selected, weight, view)]) >= r - Slack(weight)
  {
    var i := SomeAtLeast(remaining, r, view);
    var j := BestIndex(remaining, selected, weight, view);
    assert MmrScore(remaining[i], selected, weight, view) <= MmrScore(remaining[j], selected, weight, view);
    hide Slack, Blend, MaxSimilarity, FirstBest;
    SlackNonNegative(weight);
    if selected != [] {
      SimilarityBounds(remaining[i], selected, view);
      SimilarityBounds(remaining[j], selected, view);
      ScaleBack(weight, view.relevance(remaining[i]), view.relevance(remaining[j]),
                MaxSimilarity(remaining[i], selected, view), MaxSimilarity(remaining[j], selected, view));
    }
  }

  lemma SlackNonNegative(weight: real)
    requires 0.0 < weight <= 1.0
    ensures Slack(weight) >= 0.0
  {
    NonNegative(1.0 - weight, weight);
  }

  lemma NonNegative(a: real, b: real)
    requires a >= 0.0 && b > 0.0
    ensures a / b >= 0.0
  {
  }

  lemma ScaleBack(weight: real, ri: real, rj: real, si: real, sj: real)
    requires 0.0 < weight <= 1.0 && 0.0 <= si <= 1.0 && 0.0 <= sj <= 1.0
    requires Blend(weight, ri, si) <= Blend(weight, rj, sj)
    ensures rj >= ri - Slack(weight)
  {
    var mu := 1.0 - weight;
    assert mu * si <= mu && mu * sj >= 0.0;
    assert weight * ri - mu <= weight * rj;
    assert Slack(weight) * weight == mu;
    assert weight * (ri - Slack(weight)) <= weight * rj;
  }

  lemma {:induction false} SelectFromNearOptimal<T>(selected: seq<T>, remaining: seq<T>, k: int, weight: real,
                                                    view: View<T>, i: nat, r: real)
    requires 0.0 < weight <= 1.0
    requires |selected| <= i < k <= |selected| + |remaining|
    requires CountAtLeast(selected, r, view) + CountAtLeast(remaining, r, view) >= i + 1
    ensures |SelectFrom(selected, remaining, k, weight, view)| == k
    ensures view.relevance(SelectFrom(selected, remaining, k, weight, view)[i]) >= r - Slack(weight)
    decreases |remaining|
  {
    SelectFromParts(selected, remaining, k, weight, view);
    var j := BestIndex(remaining, selected, weight, view);
    var longer, rest := selected + [remaining[j]], Drop(remaining, j);
    if i == |selected| {
      CountBound(selected, r, view);
      PickIsNearOptimal(remaining, selected, weight, view, r);
      SelectFromParts(longer, rest, k, weight, view);
    } else {
      CountDrop(remaining, j, r, view);
      CountConcat(selected, [remaining[j]], r, view);
      SelectFromNearOptimal(longer, rest, k, weight, view, i, r);
    }
  }

  /** Near-optimality: if at least i + 1 candidates have relevance r or more, so does pick i (counted
      from 0), up to (1 - lambda) / lambda. */
  lemma SelectionNearOptimal<T>(candidates: seq<T>, k: nat, weight: real, view: View<T>, i: nat, r: real)
    requires 0.0 < weight <= 1.0 && i < k < |candidates|
    requires CountAtLeast(candidates, r, view) >= i + 1
    ensures i < |Select(candidates, k, weight, view)|
    ensures view.relevance(Select(candidates, k, weight, view)[i]) >= r - Slack(weight)
  {
    SelectFromNearOptimal([], candidates, k, weight, view, i, r);
  }

  // ---------------------------------------------------------------- lambda = 1

  ghost predicate NoneAbove<T>(s: seq<T>, bound: real, view: View<T>) {
    forall i :: 0 <= i < |s| ==> view.relevance(s[i]) <= bound
  }

  ghost predicate NonIncreasing<T>(s: seq<T>, view: View<T>) {
    forall i, j :: 0 <= i < j < |s| ==> view.relevance(s[i]) >= view.relevance(s[j])
  }

  /** The candidates left over, in the order of the input. */
  function LeftOver<T>(selected: seq<T>, remaining: seq<T>, k: int, weight: real, view: View<T>): seq<T>
    decreases |remaining|
  {
    if |selected| >= k || remaining == [] then remaining
    else
      var j := BestIndex(remaining, selected, weight, view);
      LeftOver(selected + [remaining[j]], Drop(remaining, j), k, weight, view)
  }

  /** The selected are in non-increasing order, and nothing that remains is more relevant than any of
      them. */
  ghost predicate IsTop<T>(selected: seq<T>, remaining: seq<T>, view: View<T>) {
    && NonIncreasing(selected, view)
    && forall i :: 0 <= i < |selected| ==> NoneAbove(remaining, view.relevance(selected[i]), view)
  }

  lemma TopGrows<T>(selected: seq<T>, remaining: seq<T>, view: View<T>, j: nat)
    requires IsTop(selected, remaining, view) && FirstBest(remaining, selected, 1.0, view, j)
    ensures IsTop(selected + [remaining[j]], Drop(remaining, j), view)
  {
    BestByRelevance(remaining, selected, view, j);
    hide FirstBest;
    var longer := selected + [remaining[j]];
    forall i | 0 <= i < |longer| ensures NoneAbove(Drop(remaining, j), view.relevance(longer[i]), view) {
      if i < |selected| {
        assert NoneAbove(remaining, view.relevance(selected[i]), view);
      }
    }
  }

  lemma {:induction false} PureRelevance<T>(selected: seq<T>, remaining: seq<T>, k: int, view: View<T>)
    requires IsTop(selected, remaining, view)
    ensures IsTop(SelectFrom(selected, remaining, k, 1.0, view), LeftOver(selected, remaining, k, 1.0, view), view)
    decreases |remaining|
  {
    if |selected| < k && remaining != [] {
      hide IsTop, FirstBest, Drop;
      var j := BestIndex(remaining, selected, 1.0, view);
      TopGrows(selected, remaining, view, j);
      DropMultiset(remaining, j);
      PureRelevance(selected + [remaining[j]], Drop(remaining, j), k, view);
    }
  }

  lemma {:induction false} NothingVanishes<T>(selected: seq<T>, remaining: seq<T>, k: int, view: View<T>)
    ensures multiset(SelectFrom(selected, remaining, k, 1.0, view))
            + multiset(LeftOver(selected, remaining, k, 1.0, view))
         == multiset(selected) + multiset(remaining)
    decreases |remaining|
  {
    if |selected| < k && remaining != [] {
      hide FirstBest;
      var j := BestIndex(remaining, selected, 1.0, view);
      DropMultiset(remaining, j);
      hide Drop;
      NothingVanishes(selected + [remaining[j]], Drop(remaining, j), k, view);
    }
  }

  lemma BestByRelevance<T>(remaining: seq<T>, selected: seq<T>, view: View<T>, j: nat)
    requires FirstBest(remaining, selected, 1.0, view, j)
    ensures NoneAbove(remaining, view.relevance(remaining[j]), view)
    ensures NoneAbove(Drop(remaining, j), view.relevance(remaining[j]), view)
  {
    forall i | 0 <= i < |remaining| ensures view.relevance(remaining[i]) <= view.relevance(remaining[j]) {
      assert MmrScore(remaining[i], selected, 1.0, view) <= MmrScore(remaining[j], selected, 1.0, view);
      assert forall x, y :: Blend(1.0, x, y) == x;
    }
  }

  /** With lambda = 1 the selection is the k most relevant candidates, in non-increasing order:
      together with what is left over it makes up the candidates, and nothing left over is more
      relevant than anything selected. */
  lemma LambdaOneIsTopK<T>(candidates: seq<T>, k: nat, view: View<T>)
    requires k < |candidates|
    ensures |Select(candidates, k, 1.0, view)| == k
    ensures NonIncreasing(Select(candidates, k, 1.0, view), view)
    ensures exists rest: seq<T> ::
              && multiset(Select(candidates, k, 1.0, view)) + multiset(rest) == multiset(candidates)
              && forall i :: 0 <= i < k ==> NoneAbove(rest, view.relevance(Select(candidates, k, 1.0, view)[i]), view)
  {
    PureRelevance([], candidates, k, view);
    NothingVanishes([], candidates, k, view);
    SelectFromParts([], candidates, k, 1.0, view);
    var rest := LeftOver([], candidates, k, 1.0, view);
    assert multiset(Select(candidates, k, 1.0, view)) + multiset(rest) == multiset(candidates);
  }
}
