/** Reciprocal rank fusion of two ranked hit lists (retrieval/hybrid.py, `_rrf_fusion`). Scores are
    real numbers. */
module Fusion {
  import opened Sorting

  const RRF_K := 60

  /** A hit's `chunk_index`, which both stores always supply; a hit without one is keyed by its text. */
  datatype ChunkRef = At(index: int) | Missing

  datatype Hit = Hit(docId: string, chunk: ChunkRef, text: string, filename: string, score: real)

  datatype Fused = Fused(hit: Hit, rrf: real)

  // ---------------------------------------------------------------- keys

  function DigitChar(d: nat): char
    requires d < 10
  {
    "0123456789"[d]
  }

  function Digits(n: nat): (s: string)
    ensures s != ""
  {
    if n < 10 then [DigitChar(n)] else Digits(n / 10) + [DigitChar(n % 10)]
  }

  /** `str(i)` */
  function IntText(i: int): string {
    if i < 0 then "-" + Digits(-i) else Digits(i)
  }

  function Key(hit: Hit): string {
    hit.docId + "_" + match hit.chunk
                      case At(i) => IntText(i)
                      case Missing => if |hit.text| <= 30 then hit.text else hit.text[..30]
  }

  function DigitValue(c: char): int {
    c as int - '0' as int
  }

  function ValueOf(s: string): int {
    if s == "" then 0 else 10 * ValueOf(s[..|s| - 1]) + DigitValue(s[|s| - 1])
  }

  lemma {:induction false} DigitsFacts(n: nat)
    ensures ValueOf(Digits(n)) == n
    ensures forall i :: 0 <= i < |Digits(n)| ==> '0' <= Digits(n)[i] <= '9'
  {
    if n >= 10 {
      DigitsFacts(n / 10);
      assert Digits(n)[..|Digits(n)| - 1] == Digits(n / 10);
    } else {
      assert Digits(n)[..0] == "";
    }
  }

  lemma IntTextSign(i: int)
    ensures var s := IntText(i);
            && s != "" && (s[0] == '-' <==> i < 0) && '_' !in s
            && s[if i < 0 then 1 else 0..] == Digits(if i < 0 then -i else i)
  {
    DigitsFacts(if i < 0 then -i else i);
  }

  lemma IntTextInjective(i: int, j: int)
    requires IntText(i) == IntText(j)
    ensures i == j
  {
    IntTextSign(i);
    IntTextSign(j);
    DigitsFacts(if i < 0 then -i else i);
    DigitsFacts(if j < 0 then -j else j);
  }

  lemma UnderscoreEndsDocId(hit: Hit, p: nat)
    requires hit.chunk.At? && |hit.docId| < p < |Key(hit)|
    ensures Key(hit)[p] != '_'
  {
    IntTextSign(hit.chunk.index);
    assert Key(hit)[p] == IntText(hit.chunk.index)[p - |hit.docId| - 1];
  }

  /** The key tells chunks apart: it is injective on pairs of a document id and a chunk number. */
  lemma KeyInjective(a: Hit, b: Hit)
    requires a.chunk.At? && b.chunk.At? && Key(a) == Key(b)
    ensures a.docId == b.docId && a.chunk == b.chunk
  {
    var na, nb := |a.docId|, |b.docId|;
    assert Key(a)[na] == '_' && Key(b)[nb] == '_';
    if na < nb {
      UnderscoreEndsDocId(a, nb);
    } else if nb < na {
      UnderscoreEndsDocId(b, na);
    } else {
      assert Key(a)[..na] == a.docId && Key(b)[..na] == b.docId;
      assert Key(a)[na + 1..] == IntText(a.chunk.index) && Key(b)[na + 1..] == IntText(b.chunk.index);
      IntTextInjective(a.chunk.index, b.chunk.index);
    }
  }

  /** Keys of hits of two shapes, with a chunk number or without, never mistake one document for
      another. */
  ghost predicate KeyTellsDocumentsApart(numbered: bool, otherNumbered: bool) {
    forall a: Hit, b: Hit :: a.chunk.At? == numbered && b.chunk.At? == otherNumbered && Key(a) == Key(b) ==>
                               a.docId == b.docId
  }

  /** They do exactly when both have their number: a text may imitate the end of a document id. */
  lemma KeyTellsDocumentsApartIff(numbered: bool, otherNumbered: bool)
    ensures KeyTellsDocumentsApart(numbered, otherNumbered) <==> numbered && otherNumbered
  {
    if numbered && otherNumbered {
      forall a: Hit, b: Hit | a.chunk.At? && b.chunk.At? && Key(a) == Key(b) ensures a.docId == b.docId {
        KeyInjective(a, b);
      }
    } else {
      var plain := Hit("d", Missing, "1_2", "f", 0.0);
      var longer := Hit("d_1", if numbered || otherNumbered then At(2) else Missing, "2", "f", 0.0);
      assert Digits(2) == "2";
      assert Key(plain) == Key(longer) && plain.docId != longer.docId;
    }
  }

  /** Hits of one document without chunk numbers count as one exactly if their first 30 characters agree. */
  lemma UnnumberedKeysAgreeIff(a: Hit, b: Hit)
    requires a.chunk.Missing? && b.chunk.Missing? && a.docId == b.docId
    ensures Key(a) == Key(b)
       <==> if |a.text| >= 30 && |b.text| >= 30 then a.text[..30] == b.text[..30] else a.text == b.text
  {
    var n := |a.docId| + 1;
    var start, other := Key(a)[n..], Key(b)[n..];
    assert Key(a)[..n] == Key(b)[..n];
    assert Key(a) == Key(a)[..n] + start && Key(b) == Key(b)[..n] + other;
    assert |a.text| <= 30 ==> start == a.text;
    assert |b.text| <= 30 ==> other == b.text;
    assert |a.text| == 30 ==> a.text[..30] == a.text;
    assert |b.text| == 30 ==> b.text[..30] == b.text;
  }

  // ---------------------------------------------------------------- scores

  function Term(rank: nat): real {
    1.0 / (rank + RRF_K) as real
  }

  /** What one list contributes to a key: one term for every place it appears in. */
  function ListScore(hits: seq<Hit>, key: string): real {
    if hits == [] then 0.0
    else
      var n := |hits| - 1;
      ListScore(hits[..n], key) + if Key(hits[n]) == key then Term(n) else 0.0
  }

  /** The distinct keys, in order of first appearance. */
  function Keys(hits: seq<Hit>): seq<string> {
    if hits == [] then []
    else
      var n := |hits| - 1;
      var before := Keys(hits[..n]);
      if Key(hits[n]) in before then before else before + [Key(hits[n])]
  }

  predicate HasKey(hits: seq<Hit>, key: string) {
    exists i :: 0 <= i < |hits| && Key(hits[i]) == key
  }

  function FirstHit(hits: seq<Hit>, key: string): Hit
    requires HasKey(hits, key)
  {
    if Key(hits[0]) == key then hits[0] else
      var i :| 0 <= i < |hits| && Key(hits[i]) == key;
      assert Key(hits[1..][i - 1]) == key;
      FirstHit(hits[1..], key)
  }

  lemma HasKeySlice(hits: seq<Hit>, n: nat, key: string)
    requires n <= |hits|
    ensures HasKey(hits[..n], key) ==> HasKey(hits, key)
    ensures HasKey(hits[n..], key) ==> HasKey(hits, key)
  {
    if HasKey(hits[..n], key) {
      var i :| 0 <= i < n && Key(hits[..n][i]) == key;
      assert Key(hits[i]) == key;
    }
    if HasKey(hits[n..], key) {
      var i :| 0 <= i < |hits[n..]| && Key(hits[n..][i]) == key;
      assert Key(hits[n + i]) == key;
    }
  }

  lemma {:induction false} KeysFacts(hits: seq<Hit>)
    ensures forall k :: k in Keys(hits) <==> HasKey(hits, k)
    ensures forall i, j :: 0 <= i < j < |Keys(hits)| ==> Keys(hits)[i] != Keys(hits)[j]
  {
    if hits != [] {
      var n := |hits| - 1;
      KeysFacts(hits[..n]);
      forall k ensures HasKey(hits, k) <==> HasKey(hits[..n], k) || Key(hits[n]) == k {
        if HasKey(hits[..n], k) {
          var i :| 0 <= i < n && Key(hits[..n][i]) == k;
          assert Key(hits[i]) == k;
        }
        if HasKey(hits, k) && Key(hits[n]) != k {
          var i :| 0 <= i < |hits| && Key(hits[i]) == k;
          assert Key(hits[..n][i]) == k;
        }
      }
    }
  }

  function Score(bm25: seq<Hit>, dense: seq<Hit>, key: string): real {
    ListScore(bm25, key) + ListScore(dense, key)
  }

  function EntryOf(bm25: seq<Hit>, dense: seq<Hit>, key: string): Fused
    requires HasKey(bm25 + dense, key)
  {
    Fused(FirstHit(bm25 + dense, key), Score(bm25, dense, key))
  }

  function Unsorted(bm25: seq<Hit>, dense: seq<Hit>): seq<Fused> {
    var keys := Keys(bm25 + dense);
    KeysFacts(bm25 + dense);
    seq(|keys|, i requires 0 <= i < |keys| => EntryOf(bm25, dense, keys[i]))
  }

  function Rrf(e: Fused): real {
    e.rrf
  }

  function FusionOf(bm25: seq<Hit>, dense: seq<Hit>): seq<Fused> {
    SortDesc(Unsorted(bm25, dense), Rrf)
  }

  // ---------------------------------------------------------------- the method

  lemma KeysSnoc(hits: seq<Hit>, hit: Hit)
    ensures Keys(hits + [hit]) == if Key(hit) in Keys(hits) then Keys(hits) else Keys(hits) + [Key(hit)]
  {
    assert (hits + [hit])[..|hits|] == hits;
  }

  lemma ListScoreSnoc(hits: seq<Hit>, hit: Hit, key: string)
    ensures ListScore(hits + [hit], key) == ListScore(hits, key) + if Key(hit) == key then Term(|hits|) else 0.0
  {
    assert (hits + [hit])[..|hits|] == hits;
  }

  lemma {:induction false} FirstHitSnoc(hits: seq<Hit>, hit: Hit, key: string)
    requires HasKey(hits, key) || Key(hit) == key
    ensures HasKey(hits + [hit], key)
    ensures FirstHit(hits + [hit], key) == if HasKey(hits, key) then FirstHit(hits, key) else hit
  {
    if HasKey(hits, key) {
      var i :| 0 <= i < |hits| && Key(hits[i]) == key;
      assert Key((hits + [hit])[i]) == key;
      if Key(hits[0]) != key {
        assert Key(hits[1..][i - 1]) == key;
        FirstHitSnoc(hits[1..], hit, key);
        assert (hits + [hit])[1..] == hits[1..] + [hit];
      }
    } else {
      assert Key((hits + [hit])[|hits|]) == key;
      if hits != [] {
        assert Key(hits[0]) != key;
        HasKeySlice(hits, 1, key);
        FirstHitSnoc(hits[1..], hit, key);
        assert (hits + [hit])[1..] == hits[1..] + [hit];
      }
    }
  }

  /** The dictionaries of the fusion loops, after the hits `seen` (of both lists): `order` is the
      insertion order of the scores. */
  ghost predicate Accumulated(seen: seq<Hit>, order: seq<string>, lookup: map<string, Hit>) {
    && order == Keys(seen)
    && (forall k :: k in lookup <==> HasKey(seen, k))
    && (forall k :: HasKey(seen, k) ==> lookup[k] == FirstHit(seen, k))
  }

  lemma AccumulateStep(seen: seq<Hit>, order: seq<string>, lookup: map<string, Hit>, hit: Hit)
    requires Accumulated(seen, order, lookup)
    ensures var k := Key(hit);
            if k in lookup then Accumulated(seen + [hit], order, lookup)
            else Accumulated(seen + [hit], order + [k], lookup[k := hit])
  {
    hide Key, Keys, FirstHit;
    var k := Key(hit);
    KeysFacts(seen);
    KeysFacts(seen + [hit]);
    KeysSnoc(seen, hit);
    forall key | HasKey(seen, key) || Key(hit) == key
      ensures HasKey(seen + [hit], key)
      ensures FirstHit(seen + [hit], key) == if HasKey(seen, key) then FirstHit(seen, key) else hit
    {
      FirstHitSnoc(seen, hit, key);
    }
  }

  /** The scores dictionary: what it held before, plus the terms of `hits`. */
  ghost predicate Scored(scores: map<string, real>, before: map<string, real>, hits: seq<Hit>) {
    && before.Keys <= scores.Keys
    && (forall k :: k in scores ==> scores[k] == (if k in before then before[k] else 0.0) + ListScore(hits, k))
    && (forall k :: k !in scores ==> ListScore(hits, k) == 0.0)
  }

  lemma ScoreStep(scores: map<string, real>, before: map<string, real>, hits: seq<Hit>, hit: Hit)
    requires Scored(scores, before, hits)
    ensures var k := Key(hit);
            Scored(scores[k := (if k in scores then scores[k] else 0.0) + Term(|hits|)], before, hits + [hit])
  {
    hide Term, ListScore;
    forall k ensures ListScore(hits + [hit], k) == ListScore(hits, k) + if Key(hit) == k then Term(|hits|) else 0.0 {
      ListScoreSnoc(hits, hit, k);
    }
  }

  /** Everything a fusion loop keeps, after the hits `done` of its list. */
  ghost predicate Fusing(earlier: seq<Hit>, done: seq<Hit>, before: map<string, real>,
                         order: seq<string>, scores: map<string, real>, lookup: map<string, Hit>) {
    Accumulated(earlier + done, order, lookup) && scores.Keys == lookup.Keys && Scored(scores, before, done)
  }

  lemma FusingStep(earlier: seq<Hit>, done: seq<Hit>, before: map<string, real>,
                   order: seq<string>, scores: map<string, real>, lookup: map<string, Hit>, hit: Hit)
    requires Fusing(earlier, done, before, order, scores, lookup)
    ensures var k := Key(hit);
            var newScores := scores[k := (if k in scores then scores[k] else 0.0) + Term(|done|)];
            if k in lookup then Fusing(earlier, done + [hit], before, order, newScores, lookup)
            else Fusing(earlier, done + [hit], before, order + [k], newScores, lookup[k := hit])
  {
    hide Accumulated, Scored, Term, Key;
    AccumulateStep(earlier + done, order, lookup, hit);
    ScoreStep(scores, before, done, hit);
    assert earlier + done + [hit] == earlier + (done + [hit]);
  }

  lemma FusingStart(earlier: seq<Hit>, order: seq<string>, scores: map<string, real>, lookup: map<string, Hit>)
    requires Accumulated(earlier, order, lookup) && scores.Keys == lookup.Keys
    ensures Fusing(earlier, [], scores, order, scores, lookup)
  {
    hide Accumulated;
    assert earlier + [] == earlier;
  }

  /** One of the two fusion loops: adds a list's terms to what has been found so far. */
  method AddList(hits: seq<Hit>, ghost earlier: seq<Hit>, order0: seq<string>, scores0: map<string, real>,
                 lookup0: map<string, Hit>)
    returns (order: seq<string>, scores: map<string, real>, lookup: map<string, Hit>)
    requires Accumulated(earlier, order0, lookup0) && scores0.Keys == lookup0.Keys
    ensures Fusing(earlier, hits, scores0, order, scores, lookup)
  {
    hide Fusing, Accumulated, Term, Key;
    order, scores, lookup := order0, scores0, lookup0;
    FusingStart(earlier, order, scores, lookup);
    assert hits[..0] == [];
    for rank := 0 to |hits|
      invariant Fusing(earlier, hits[..rank], scores0, order, scores, lookup)
    {
      var hit := hits[rank];
      var k := Key(hit);
      FusingStep(earlier, hits[..rank], scores0, order, scores, lookup, hit);
      assert hits[..rank + 1] == hits[..rank] + [hit];
      scores := scores[k := (if k in scores then scores[k] else 0.0) + Term(rank)];
      if k !in lookup {
        order := order + [k];
        lookup := lookup[k := hit];
      }
    }
    assert hits[..|hits|] == hits;
  }

  lemma NothingAccumulated()
    ensures Accumulated([], [], map[])
  {
  }

  lemma FusingEnds(hits: seq<Hit>, order: seq<string>, scores: map<string, real>, lookup: map<string, Hit>)
    requires Fusing([], hits, map[], order, scores, lookup)
    ensures Accumulated(hits, order, lookup) && scores.Keys == lookup.Keys && Scored(scores, map[], hits)
  {
    hide Accumulated, Scored;
    assert [] + hits == hits;
  }

  lemma FusedOrder(bm25: seq<Hit>, dense: seq<Hit>, first: map<string, real>,
                   order: seq<string>, scores: map<string, real>, lookup: map<string, Hit>)
    requires Fusing(bm25, dense, first, order, scores, lookup)
    ensures |order| == |Unsorted(bm25, dense)|
    ensures forall i :: 0 <= i < |order| ==> order[i] in scores && order[i] in lookup
  {
    KeysFacts(bm25 + dense);
  }

  /** An item of the scores, with its hit, is the next entry. */
  lemma FusedNext(bm25: seq<Hit>, dense: seq<Hit>, first: map<string, real>,
                  order: seq<string>, scores: map<string, real>, lookup: map<string, Hit>, i: nat)
    requires Fusing(bm25, dense, first, order, scores, lookup) && Scored(first, map[], bm25) && i < |order|
    ensures i < |Unsorted(bm25, dense)| && order[i] in scores && order[i] in lookup
    ensures Unsorted(bm25, dense)[i] == Fused(lookup[order[i]], scores[order[i]])
  {
    KeysFacts(bm25 + dense);
    TotalScores(bm25, dense, first, scores);
    hide Scored, ListScore, Keys, FirstHit;
    assert HasKey(bm25 + dense, order[i]);
  }

  /** `_rrf_fusion` */
  method RrfFusion(bm25: seq<Hit>, dense: seq<Hit>) returns (fused: seq<Fused>)
    ensures fused == FusionOf(bm25, dense)
  {
    hide Unsorted, Fusing, Accumulated, Scored, HasKey, SortDesc;
    var order: seq<string>, scores: map<string, real>, lookup: map<string, Hit> := [], map[], map[];
    NothingAccumulated();
    order, scores, lookup := AddList(bm25, [], order, scores, lookup);
    FusingEnds(bm25, order, scores, lookup);
    ghost var first := scores;
    order, scores, lookup := AddList(dense, bm25, order, scores, lookup);
    FusedOrder(bm25, dense, first, order, scores, lookup);
    var entries: seq<Fused> := [];
    for i := 0 to |order|
      invariant entries == Unsorted(bm25, dense)[..i]
    {
      FusedNext(bm25, dense, first, order, scores, lookup, i);
      entries := entries + [Fused(lookup[order[i]], scores[order[i]])];
    }
    assert Unsorted(bm25, dense)[..|order|] == Unsorted(bm25, dense);
    fused := SortDesc(entries, Rrf);
  }

  lemma TotalScores(bm25: seq<Hit>, dense: seq<Hit>, first: map<string, real>, scores: map<string, real>)
    requires Scored(first, map[], bm25) && Scored(scores, first, dense)
    ensures forall k :: k in scores ==> scores[k] == Score(bm25, dense, k)
  {
  }

  lemma {:induction false} AbsentScore(hits: seq<Hit>, key: string)
    requires !HasKey(hits, key)
    ensures ListScore(hits, key) == 0.0
  {
    if hits != [] {
      var n := |hits| - 1;
      HasKeySlice(hits, n, key);
      AbsentScore(hits[..n], key);
    }
  }

  // ---------------------------------------------------------------- ranking theorems

  /** No key twice in one list. */
  predicate DistinctKeys(hits: seq<Hit>) {
    forall i, j :: 0 <= i < j < |hits| ==> Key(hits[i]) != Key(hits[j])
  }

  lemma {:induction false} DistinctScore(hits: seq<Hit>, r: nat)
    requires DistinctKeys(hits) && r < |hits|
    ensures ListScore(hits, Key(hits[r])) == Term(r)
  {
    var n := |hits| - 1;
    if r == n {
      assert forall i :: 0 <= i < n ==> hits[..n][i] == hits[i];
      AbsentScore(hits[..n], Key(hits[n]));
    } else {
      DistinctScore(hits[..n], r);
      assert hits[..n][r] == hits[r];
    }
  }

  lemma TermDecreases(a: nat, b: nat)
    ensures Term(a) > 0.0
    ensures a < b ==> Term(a) > Term(b)
  {
    if a < b {
      Reciprocal((a + RRF_K) as real, (b + RRF_K) as real);
    }
  }

  lemma Reciprocal(x: real, y: real)
    requires 0.0 < x < y
    ensures 1.0 / x > 1.0 / y
  {
    assert (1.0 / x - 1.0 / y) * (x * y) == y - x;
  }

  function FusedKey(e: Fused): string {
    Key(e.hit)
  }

  lemma {:induction false} FirstHitHasKey(hits: seq<Hit>, key: string)
    requires HasKey(hits, key)
    ensures Key(FirstHit(hits, key)) == key
    ensures FirstHit(hits, key) in hits
  {
    if Key(hits[0]) != key {
      var i :| 0 <= i < |hits| && Key(hits[i]) == key;
      assert Key(hits[1..][i - 1]) == key;
      FirstHitHasKey(hits[1..], key);
    }
  }

  lemma UnsortedEntry(bm25: seq<Hit>, dense: seq<Hit>, j: nat)
    requires j < |Unsorted(bm25, dense)|
    ensures var k := Keys(bm25 + dense)[j];
            && HasKey(bm25 + dense, k)
            && Unsorted(bm25, dense)[j] == EntryOf(bm25, dense, k)
            && FusedKey(Unsorted(bm25, dense)[j]) == k
  {
    KeysFacts(bm25 + dense);
    FirstHitHasKey(bm25 + dense, Keys(bm25 + dense)[j]);
  }

  lemma {:induction false} FirstHitIsFirst(hits: seq<Hit>, key: string) returns (p: nat)
    requires HasKey(hits, key)
    ensures IsFirst(hits, p, key) && hits[p] == FirstHit(hits, key)
  {
    if Key(hits[0]) == key {
      p := 0;
    } else {
      var i :| 0 <= i < |hits| && Key(hits[i]) == key;
      assert Key(hits[1..][i - 1]) == key;
      var q := FirstHitIsFirst(hits[1..], key);
      p := q + 1;
      assert forall j :: 1 <= j < p ==> hits[j] == hits[1..][j - 1];
    }
  }

  /** The hit at `p` is the first with the key. */
  ghost predicate IsFirst(hits: seq<Hit>, p: int, key: string) {
    0 <= p < |hits| && Key(hits[p]) == key && forall j :: 0 <= j < p ==> Key(hits[j]) != key
  }

  /** Each entry of the fused list is the first hit with its key, those of BM25 coming first, and carries
      the sum of the key's terms. */
  lemma FusedEntry(bm25: seq<Hit>, dense: seq<Hit>, i: nat)
    requires i < |FusionOf(bm25, dense)|
    ensures var e := FusionOf(bm25, dense)[i];
            && HasKey(bm25 + dense, FusedKey(e))
            && e == EntryOf(bm25, dense, FusedKey(e))
            && e.hit in bm25 + dense
            && exists p :: IsFirst(bm25 + dense, p, FusedKey(e)) && e.hit == (bm25 + dense)[p]
  {
    var j := SortedElement(Unsorted(bm25, dense), Rrf, i);
    UnsortedEntry(bm25, dense, j);
    FirstHitHasKey(bm25 + dense, Keys(bm25 + dense)[j]);
    var p := FirstHitIsFirst(bm25 + dense, Keys(bm25 + dense)[j]);
  }

  /** What a list without repeats adds for a key: 1 / (60 + rank), ranks counting from 0, or nothing. */
  ghost predicate Adds(hits: seq<Hit>, key: string, x: real) {
    && (!HasKey(hits, key) ==> x == 0.0)
    && forall r :: 0 <= r < |hits| && Key(hits[r]) == key ==> x == 1.0 / (60 + r) as real
  }

  lemma ListAdds(hits: seq<Hit>, key: string)
    requires DistinctKeys(hits)
    ensures Adds(hits, key, ListScore(hits, key))
  {
    if !HasKey(hits, key) {
      AbsentScore(hits, key);
    }
    forall r: nat | r < |hits| && Key(hits[r]) == key ensures ListScore(hits, key) == 1.0 / (60 + r) as real {
      DistinctScore(hits, r);
    }
  }

  /** The score of an entry is what its two lists add, if neither repeats a key. */
  lemma FusedScore(bm25: seq<Hit>, dense: seq<Hit>, i: nat)
    requires DistinctKeys(bm25) && DistinctKeys(dense) && i < |FusionOf(bm25, dense)|
    ensures var e := FusionOf(bm25, dense)[i];
            exists x, y :: Adds(bm25, FusedKey(e), x) && Adds(dense, FusedKey(e), y) && e.rrf == x + y
  {
    FusedEntry(bm25, dense, i);
    var key := FusedKey(FusionOf(bm25, dense)[i]);
    ListAdds(bm25, key);
    ListAdds(dense, key);
  }

  /** The fused list holds every distinct key exactly once, in descending order of score. */
  lemma FusionListsEachKeyOnce(bm25: seq<Hit>, dense: seq<Hit>)
    ensures Descending(FusionOf(bm25, dense), Rrf)
    ensures NoTwins(FusionOf(bm25, dense), FusedKey)
    ensures forall k :: HasKey(bm25 + dense, k) ==>
              exists i :: 0 <= i < |FusionOf(bm25, dense)| && FusedKey(FusionOf(bm25, dense)[i]) == k
  {
    var entries, fused := Unsorted(bm25, dense), FusionOf(bm25, dense);
    SortFacts(entries, Rrf);
    KeysFacts(bm25 + dense);
    forall j: nat | j < |entries| ensures FusedKey(entries[j]) == Keys(bm25 + dense)[j] {
      UnsortedEntry(bm25, dense, j);
    }
    SortNoTwins(entries, Rrf, FusedKey);
    forall k | HasKey(bm25 + dense, k) ensures exists i :: 0 <= i < |fused| && FusedKey(fused[i]) == k {
      var j :| 0 <= j < |entries| && Keys(bm25 + dense)[j] == k;
      assert entries[j] in multiset(entries);
      assert entries[j] in multiset(fused);
      var i :| 0 <= i < |fused| && fused[i] == entries[j];
      assert FusedKey(fused[i]) == k;
    }
  }

  /** A higher score means an earlier place. */
  lemma HigherScoreFirst(bm25: seq<Hit>, dense: seq<Hit>, i: nat, j: nat)
    requires i < |FusionOf(bm25, dense)| && j < |FusionOf(bm25, dense)|
    requires var fused := FusionOf(bm25, dense);
             Score(bm25, dense, FusedKey(fused[i])) > Score(bm25, dense, FusedKey(fused[j]))
    ensures i < j
  {
    FusedEntry(bm25, dense, i);
    FusedEntry(bm25, dense, j);
    SortFacts(Unsorted(bm25, dense), Rrf);
  }
}
