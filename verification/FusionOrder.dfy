/** What fusion promises about the order of its list (retrieval/hybrid.py, `_rrf_fusion`), and
    exactly when agreement of the two retrievers wins. */
module FusionOrder {
  import opened Sorting
  import opened Fusion

  predicate InBoth(bm25: seq<Hit>, dense: seq<Hit>, key: string) {
    HasKey(bm25, key) && HasKey(dense, key)
  }

  lemma ScoreInOne(hits: seq<Hit>, key: string) returns (r: nat)
    requires DistinctKeys(hits) && HasKey(hits, key)
    ensures r < |hits| && Key(hits[r]) == key && ListScore(hits, key) == Term(r)
  {
    r :| 0 <= r < |hits| && Key(hits[r]) == key;
    DistinctScore(hits, r);
  }

  /** Two of the smallest terms a list of `n` hits can give beat one of the largest exactly when
      the list has at most RRF_K hits. */
  lemma TwoTermsBeatOneIff(n: nat)
    requires n >= 1
    ensures Term(n - 1) + Term(n - 1) > Term(0) <==> n <= RRF_K
  {
    var x := (n - 1 + RRF_K) as real;
    assert Term(n - 1) * x == 1.0 && Term(0) * 60.0 == 1.0;
    if n <= RRF_K {
      assert x < 120.0;
      Reciprocal(x, 120.0);
    } else if n == RRF_K + 1 {
      assert x == 120.0;
    } else {
      Reciprocal(120.0, x);
    }
  }

  /** With at most RRF_K hits a list, each chunk once, every chunk found by both retrievers comes
      before every chunk found by only one. */
  lemma FoundByBothComesFirst(bm25: seq<Hit>, dense: seq<Hit>, i: nat, j: nat)
    requires |bm25| <= RRF_K && |dense| <= RRF_K && DistinctKeys(bm25) && DistinctKeys(dense)
    requires i < |FusionOf(bm25, dense)| && j < |FusionOf(bm25, dense)|
    requires InBoth(bm25, dense, FusedKey(FusionOf(bm25, dense)[i]))
    requires !InBoth(bm25, dense, FusedKey(FusionOf(bm25, dense)[j]))
    ensures i < j
  {
    var both, one := FusedKey(FusionOf(bm25, dense)[i]), FusedKey(FusionOf(bm25, dense)[j]);
    var r1 := ScoreInOne(bm25, both);
    var r2 := ScoreInOne(dense, both);
    TwoTermsBeatOneIff(RRF_K);
    TermDecreases(r1, RRF_K - 1);
    TermDecreases(r2, RRF_K - 1);
    AtMostOneTerm(bm25, dense, one);
    HigherScoreFirst(bm25, dense, i, j);
  }

  lemma AtMostOneTerm(bm25: seq<Hit>, dense: seq<Hit>, key: string)
    requires DistinctKeys(bm25) && DistinctKeys(dense) && !InBoth(bm25, dense, key)
    ensures Score(bm25, dense, key) <= Term(0)
  {
    TermDecreases(0, 1);
    if HasKey(bm25, key) {
      var r := ScoreInOne(bm25, key);
      TermDecreases(0, r);
      AbsentScore(dense, key);
    } else {
      AbsentScore(bm25, key);
      if HasKey(dense, key) {
        var r := ScoreInOne(dense, key);
        TermDecreases(0, r);
      } else {
        AbsentScore(dense, key);
      }
    }
  }

  /** `a` is ranked above `b` wherever `b` appears. */
  ghost predicate AboveIn(hits: seq<Hit>, a: string, b: string) {
    forall j :: 0 <= j < |hits| && Key(hits[j]) == b ==> HasKey(hits[..j], a)
  }

  lemma AboveScore(hits: seq<Hit>, a: string, b: string)
    requires DistinctKeys(hits) && AboveIn(hits, a, b)
    ensures ListScore(hits, a) >= ListScore(hits, b) >= 0.0
    ensures HasKey(hits, b) ==> ListScore(hits, a) > ListScore(hits, b)
  {
    if HasKey(hits, b) {
      var j := ScoreInOne(hits, b);
      var i :| 0 <= i < j && Key(hits[..j][i]) == a;
      assert hits[..j][i] == hits[i];
      DistinctScore(hits, i);
      TermDecreases(i, j);
      TermDecreases(j, i);
    } else {
      AbsentScore(hits, b);
      if HasKey(hits, a) {
        var i := ScoreInOne(hits, a);
        TermDecreases(i, i + 1);
      } else {
        AbsentScore(hits, a);
      }
    }
  }

  /** A chunk ranked above another in every list that contains the other precedes it in the fused
      list. */
  lemma FusionRespectsAgreement(bm25: seq<Hit>, dense: seq<Hit>, i: nat, j: nat)
    requires DistinctKeys(bm25) && DistinctKeys(dense)
    requires i < |FusionOf(bm25, dense)| && j < |FusionOf(bm25, dense)|
    requires AboveIn(bm25, FusedKey(FusionOf(bm25, dense)[i]), FusedKey(FusionOf(bm25, dense)[j]))
    requires AboveIn(dense, FusedKey(FusionOf(bm25, dense)[i]), FusedKey(FusionOf(bm25, dense)[j]))
    ensures i < j
  {
    var a, b := FusedKey(FusionOf(bm25, dense)[i]), FusedKey(FusionOf(bm25, dense)[j]);
    AboveScore(bm25, a, b);
    AboveScore(dense, a, b);
    FusedEntry(bm25, dense, j);
    var p :| 0 <= p < |bm25 + dense| && Key((bm25 + dense)[p]) == b;
    if p < |bm25| {
      assert Key(bm25[p]) == b;
    } else {
      assert Key(dense[p - |bm25|]) == b;
    }
    HigherScoreFirst(bm25, dense, i, j);
  }

  // ---------------------------------------------------------------- exactly when agreement wins

  /** Place `i` of the fused list is of a chunk that both retrievers have found. */
  predicate AgreedAt(bm25: seq<Hit>, dense: seq<Hit>, i: nat) {
    i < |FusionOf(bm25, dense)| && InBoth(bm25, dense, FusedKey(FusionOf(bm25, dense)[i]))
  }

  predicate SingleAt(bm25: seq<Hit>, dense: seq<Hit>, j: nat) {
    j < |FusionOf(bm25, dense)| && !InBoth(bm25, dense, FusedKey(FusionOf(bm25, dense)[j]))
  }

  /** Every chunk that both retrievers have found comes before every chunk that only one has. */
  ghost predicate AgreedFirst(bm25: seq<Hit>, dense: seq<Hit>) {
    forall i: nat, j: nat :: AgreedAt(bm25, dense, i) && SingleAt(bm25, dense, j) ==> i < j
  }

  /** Agreement wins for all pairs of lists of at most `n` hits, with or without repeated keys. */
  ghost predicate AgreementWins(n: nat, repeats: bool) {
    forall bm25, dense ::
      |bm25| <= n && |dense| <= n && (repeats || (DistinctKeys(bm25) && DistinctKeys(dense))) ==>
        AgreedFirst(bm25, dense)
  }

  lemma PlaceOf(bm25: seq<Hit>, dense: seq<Hit>, key: string) returns (i: nat)
    requires HasKey(bm25, key) || HasKey(dense, key)
    ensures i < |FusionOf(bm25, dense)| && FusedKey(FusionOf(bm25, dense)[i]) == key
  {
    HasKeyInEither(bm25, dense, key);
    FusionListsEachKeyOnce(bm25, dense);
    i :| 0 <= i < |FusionOf(bm25, dense)| && FusedKey(FusionOf(bm25, dense)[i]) == key;
  }

  lemma HasKeyInEither(a: seq<Hit>, b: seq<Hit>, key: string)
    ensures HasKey(a + b, key) <==> HasKey(a, key) || HasKey(b, key)
  {
    if HasKey(a, key) {
      var i :| 0 <= i < |a| && Key(a[i]) == key;
      assert Key((a + b)[i]) == key;
    }
    if HasKey(b, key) {
      var i :| 0 <= i < |b| && Key(b[i]) == key;
      assert Key((a + b)[|a| + i]) == key;
    }
    if HasKey(a + b, key) {
      var i :| 0 <= i < |a + b| && Key((a + b)[i]) == key;
      assert if i < |a| then Key(a[i]) == key else Key(b[i - |a|]) == key;
    }
  }

  /** Two chunks of equal score keep the order of their first appearance. */
  lemma TieKeepsFirst(bm25: seq<Hit>, dense: seq<Hit>, p: nat, q: nat) returns (i: nat, j: nat)
    requires p < q < |Keys(bm25 + dense)|
    requires Score(bm25, dense, Keys(bm25 + dense)[p]) == Score(bm25, dense, Keys(bm25 + dense)[q])
    ensures i < j < |FusionOf(bm25, dense)|
    ensures FusedKey(FusionOf(bm25, dense)[i]) == Keys(bm25 + dense)[p]
    ensures FusedKey(FusionOf(bm25, dense)[j]) == Keys(bm25 + dense)[q]
  {
    var entries := Unsorted(bm25, dense);
    UnsortedEntry(bm25, dense, p);
    UnsortedEntry(bm25, dense, q);
    var a, b := entries[p], entries[q];
    assert Before(entries, a, b);
    SortKeepsOrder(entries, Rrf, a, b);
    i, j :| 0 <= i < j < |FusionOf(bm25, dense)| && FusionOf(bm25, dense)[i] == a && FusionOf(bm25, dense)[j] == b;
  }

  lemma {:induction false} FirstKey(hits: seq<Hit>)
    requires hits != []
    ensures Keys(hits) != [] && Keys(hits)[0] == Key(hits[0])
  {
    if |hits| > 1 {
      FirstKey(hits[..|hits| - 1]);
    } else {
      assert Keys(hits[..0]) == [];
    }
  }

  function NumberedHit(docId: string, index: nat): Hit {
    Hit(docId, At(index), "", "", 0.0)
  }

  /** `n` chunks of one document, and a last one of the document "c". */
  function ListEndingInC(docId: string, n: nat): (hits: seq<Hit>)
    ensures |hits| == n + 1 && hits[n] == NumberedHit("c", 0)
    ensures forall i :: 0 <= i < n ==> hits[i] == NumberedHit(docId, i)
  {
    seq(n, i requires 0 <= i < n => NumberedHit(docId, i)) + [NumberedHit("c", 0)]
  }

  lemma ListEndingInCDistinct(docId: string, n: nat)
    requires docId != "c"
    ensures DistinctKeys(ListEndingInC(docId, n))
  {
    var hits := ListEndingInC(docId, n);
    forall i, j | 0 <= i < j < |hits| ensures Key(hits[i]) != Key(hits[j]) {
      if Key(hits[i]) == Key(hits[j]) {
        KeyInjective(hits[i], hits[j]);
      }
    }
  }

  lemma OtherDocumentAbsent(hits: seq<Hit>, hit: Hit)
    requires hit.chunk.At? && forall i :: 0 <= i < |hits| ==> hits[i].chunk.At? && hits[i].docId != hit.docId
    ensures !HasKey(hits, Key(hit))
  {
    if HasKey(hits, Key(hit)) {
      var i :| 0 <= i < |hits| && Key(hits[i]) == Key(hit);
      KeyInjective(hits[i], hit);
    }
  }

  /** With one hit more than RRF_K, the first chunk of one list ties with a chunk that is last in both,
      and stays before it. */
  lemma LongListsTie()
    ensures var bm25, dense := ListEndingInC("b", RRF_K), ListEndingInC("d", RRF_K);
            !AgreedFirst(bm25, dense) && DistinctKeys(bm25) && DistinctKeys(dense)
  {
    var bm25, dense := ListEndingInC("b", RRF_K), ListEndingInC("d", RRF_K);
    var one, both := Key(bm25[0]), Key(bm25[RRF_K]);
    ListEndingInCDistinct("b", RRF_K);
    ListEndingInCDistinct("d", RRF_K);
    OtherDocumentAbsent(dense, bm25[0]);
    DistinctScore(bm25, 0);
    DistinctScore(bm25, RRF_K);
    DistinctScore(dense, RRF_K);
    AbsentScore(dense, one);
    TwoSmallTermsTie();
    assert HasKey(bm25, both) && HasKey(dense, both);
    TieBreaks(bm25, dense, one, both);
  }

  lemma TwoSmallTermsTie()
    ensures Term(RRF_K) + Term(RRF_K) == Term(0)
  {
    assert Term(RRF_K) * 120.0 == 1.0 && Term(0) * 60.0 == 1.0;
  }

  lemma TieBreaks(bm25: seq<Hit>, dense: seq<Hit>, one: string, both: string)
    requires bm25 != [] && one == Key(bm25[0]) && one != both
    requires InBoth(bm25, dense, both) && !InBoth(bm25, dense, one)
    requires Score(bm25, dense, one) == Score(bm25, dense, both)
    ensures !AgreedFirst(bm25, dense)
  {
    FirstKey(bm25 + dense);
    KeysFacts(bm25 + dense);
    HasKeyInEither(bm25, dense, both);
    var q :| 0 <= q < |Keys(bm25 + dense)| && Keys(bm25 + dense)[q] == both;
    var i, j := TieKeepsFirst(bm25, dense, 0, q);
    assert SingleAt(bm25, dense, i) && AgreedAt(bm25, dense, j);
  }

  /** Lists without repeated keys: agreement wins up to exactly RRF_K hits a list. */
  lemma AgreementWinsIff(n: nat)
    ensures AgreementWins(n, false) <==> n <= RRF_K
  {
    if n <= RRF_K {
      forall bm25: seq<Hit>, dense: seq<Hit> |
        |bm25| <= n && |dense| <= n && DistinctKeys(bm25) && DistinctKeys(dense)
        ensures AgreedFirst(bm25, dense)
      {
        AgreedFirstInShortLists(bm25, dense);
      }
    } else {
      LongListsTie();
      assert |ListEndingInC("b", RRF_K)| <= n && |ListEndingInC("d", RRF_K)| <= n;
    }
  }

  lemma AgreedFirstInShortLists(bm25: seq<Hit>, dense: seq<Hit>)
    requires |bm25| <= RRF_K && |dense| <= RRF_K && DistinctKeys(bm25) && DistinctKeys(dense)
    ensures AgreedFirst(bm25, dense)
  {
    forall i: nat, j: nat | AgreedAt(bm25, dense, i) && SingleAt(bm25, dense, j) ensures i < j {
      FoundByBothComesFirst(bm25, dense, i, j);
    }
  }

  predicate IsPlaceOf(bm25: seq<Hit>, dense: seq<Hit>, i: nat, key: string) {
    i < |FusionOf(bm25, dense)| && FusedKey(FusionOf(bm25, dense)[i]) == key
  }

  /** A chunk that a retried ingestion left twice in the BM25 index, and that only BM25 finds, is listed
      before a chunk that both retrievers find. */
  lemma DuplicateOutranksAgreement(twice: Hit, both: Hit)
    requires Key(twice) != Key(both)
    ensures var bm25, dense := [twice, twice, both], [both];
            && InBoth(bm25, dense, Key(both)) && !InBoth(bm25, dense, Key(twice))
            && exists i: nat, j: nat ::
                 i < j && IsPlaceOf(bm25, dense, i, Key(twice)) && IsPlaceOf(bm25, dense, j, Key(both))
  {
    var bm25, dense := [twice, twice, both], [both];
    assert Key(bm25[0]) == Key(twice) && Key(bm25[2]) == Key(both) && Key(dense[0]) == Key(both);
    DuplicateScores(twice, both);
    var i := PlaceOf(bm25, dense, Key(twice));
    var j := PlaceOf(bm25, dense, Key(both));
    HigherScoreFirst(bm25, dense, i, j);
    assert IsPlaceOf(bm25, dense, i, Key(twice)) && IsPlaceOf(bm25, dense, j, Key(both));
  }

  lemma DuplicateScores(twice: Hit, both: Hit)
    requires Key(twice) != Key(both)
    ensures Score([twice, twice, both], [both], Key(twice)) > Score([twice, twice, both], [both], Key(both))
  {
    var bm25, dense := [twice, twice, both], [both];
    forall k ensures ListScore(bm25, k) == (if Key(twice) == k then Term(0) + Term(1) else 0.0)
                                           + if Key(both) == k then Term(2) else 0.0
    {
      ListScoreSnoc([], twice, k);
      ListScoreSnoc([] + [twice], twice, k);
      ListScoreSnoc([] + [twice] + [twice], both, k);
      assert [] + [twice] + [twice] + [both] == bm25;
    }
    forall k ensures ListScore(dense, k) == if Key(both) == k then Term(0) else 0.0 {
      ListScoreSnoc([], both, k);
      assert [] + [both] == dense;
    }
    TermDecreases(1, 2);
  }

  lemma ScoreOfOne(x: Hit, key: string)
    ensures ListScore([x], key) == if Key(x) == key then Term(0) else 0.0
  {
    hide Key, Term;
    ListScoreSnoc([], x, key);
    assert [] + [x] == [x];
  }

  lemma ScoreOfTwo(x: Hit, y: Hit, key: string)
    ensures ListScore([x, y], key) == (if Key(x) == key then Term(0) else 0.0) + if Key(y) == key then Term(1) else 0.0
  {
    hide Key, Term;
    ScoreOfOne(x, key);
    ListScoreSnoc([x], y, key);
    assert [x] + [y] == [x, y];
  }

  /** In a list of two, a chunk has one of the two terms at least, and a second chunk one at most. */
  lemma ListOfTwo(hits: seq<Hit>, a: string, b: string)
    requires |hits| <= 2 && HasKey(hits, a) && a != b
    ensures ListScore(hits, a) >= Term(1) && ListScore(hits, b) <= Term(0)
  {
    TermDecreases(0, 1);
    TermDecreases(1, 2);
    hide Key, Term, ListScore;
    if |hits| == 1 {
      ScoreOfOne(hits[0], a);
      ScoreOfOne(hits[0], b);
      assert [hits[0]] == hits;
    } else {
      ScoreOfTwo(hits[0], hits[1], a);
      ScoreOfTwo(hits[0], hits[1], b);
      assert [hits[0], hits[1]] == hits;
    }
  }

  lemma AgreedFirstInListsOfTwo(bm25: seq<Hit>, dense: seq<Hit>, i: nat, j: nat)
    requires |bm25| <= 2 && |dense| <= 2 && i < |FusionOf(bm25, dense)| && j < |FusionOf(bm25, dense)|
    requires InBoth(bm25, dense, FusedKey(FusionOf(bm25, dense)[i]))
    requires !InBoth(bm25, dense, FusedKey(FusionOf(bm25, dense)[j]))
    ensures i < j
  {
    var a, b := FusedKey(FusionOf(bm25, dense)[i]), FusedKey(FusionOf(bm25, dense)[j]);
    ListOfTwo(bm25, a, b);
    ListOfTwo(dense, a, b);
    if HasKey(bm25, b) {
      AbsentScore(dense, b);
    } else {
      AbsentScore(bm25, b);
    }
    assert Term(1) * 61.0 == 1.0 && Term(0) * 60.0 == 1.0;
    HigherScoreFirst(bm25, dense, i, j);
  }

  /** Lists that may repeat a key: agreement wins up to exactly two hits a list. */
  lemma AgreementWinsWithRepeatsIff(n: nat)
    ensures AgreementWins(n, true) <==> n <= 2
  {
    hide FusionOf, Key;
    if n <= 2 {
      forall bm25: seq<Hit>, dense: seq<Hit> | |bm25| <= n && |dense| <= n ensures AgreedFirst(bm25, dense) {
        forall i: nat, j: nat | AgreedAt(bm25, dense, i) && SingleAt(bm25, dense, j) ensures i < j {
          AgreedFirstInListsOfTwo(bm25, dense, i, j);
        }
      }
    } else {
      RepeatsOfThreeFail();
    }
  }

  lemma DifferentDocuments(a: Hit, b: Hit)
    requires a.chunk.At? && b.chunk.At? && a.docId != b.docId
    ensures Key(a) != Key(b)
  {
    if Key(a) == Key(b) {
      KeyInjective(a, b);
    }
  }

  lemma RepeatsOfThreeFail()
    ensures exists bm25, dense :: |bm25| == 3 && |dense| == 1 && !AgreedFirst(bm25, dense)
  {
    var twice, both := NumberedHit("b", 0), NumberedHit("c", 0);
    DifferentDocuments(twice, both);
    hide Key, FusionOf;
    DuplicateOutranksAgreement(twice, both);
    var bm25, dense := [twice, twice, both], [both];
    var i: nat, j: nat :| i < j && IsPlaceOf(bm25, dense, i, Key(twice)) && IsPlaceOf(bm25, dense, j, Key(both));
    assert SingleAt(bm25, dense, i) && AgreedAt(bm25, dense, j);
    assert |bm25| == 3 && |dense| == 1 && !AgreedFirst(bm25, dense);
  }
}
