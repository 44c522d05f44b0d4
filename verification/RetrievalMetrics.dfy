/** The ranking metrics (eval/retrieval_metrics.py). The logarithmic discount 1/log2(rank + 1) is any
    positive, strictly decreasing function of the rank. */
module RetrievalMetrics {
  import opened PyText

  type Doc = string

  function SetOf(docs: seq<Doc>): set<Doc> {
    set d | d in docs
  }

  /** How many distinct relevant documents a list retrieves. */
  function Found(docs: seq<Doc>, relevant: set<Doc>): nat {
    |SetOf(docs) * relevant|
  }

  // ---------------------------------------------------------------- credited gains

  /** What a newly found document earns, given how many were found before it and its rank. */
  type Gain = (nat, nat) -> real

  /** Gains are positive, and a later rank earns strictly less. */
  ghost predicate Falling(g: Gain) {
    && (forall j: nat, r: nat :: r >= 1 ==> g(j, r) > 0.0)
    && (forall j: nat, r: nat, q: nat :: 1 <= r < q ==> g(j, r) > g(j, q))
  }

  /** Both DCG and the precision sum: every relevant document is credited once, where it first
      appears. */
  function Credit(docs: seq<Doc>, relevant: set<Doc>, g: Gain): real {
    if docs == [] then 0.0
    else
      var n := |docs| - 1;
      var before := docs[..n];
      Credit(before, relevant, g)
      + if docs[n] in relevant && docs[n] !in before then g(Found(before, relevant), n + 1) else 0.0
  }

  /** The credit of `h` relevant documents on the first `h` ranks. */
  function Ideal(h: nat, g: Gain): real {
    if h == 0 then 0.0 else Ideal(h - 1, g) + g(h - 1, h)
  }

  lemma FoundSnoc(before: seq<Doc>, doc: Doc, relevant: set<Doc>)
    ensures Found(before + [doc], relevant)
         == Found(before, relevant) + if doc in relevant && doc !in before then 1 else 0
    ensures SetOf(before + [doc]) == SetOf(before) + {doc}
  {
    assert SetOf(before + [doc]) == SetOf(before) + {doc};
    if doc in relevant && doc !in before {
      assert SetOf(before + [doc]) * relevant == SetOf(before) * relevant + {doc};
    } else {
      assert SetOf(before + [doc]) * relevant == SetOf(before) * relevant;
    }
  }

  lemma CreditSnoc(before: seq<Doc>, doc: Doc, relevant: set<Doc>, g: Gain)
    ensures Credit(before + [doc], relevant, g)
         == Credit(before, relevant, g)
            + if doc in relevant && doc !in before then g(Found(before, relevant), |before| + 1) else 0.0
  {
    assert (before + [doc])[..|before|] == before;
  }

  lemma {:induction false} FoundBounds(docs: seq<Doc>, relevant: set<Doc>)
    ensures Found(docs, relevant) <= |relevant|
    ensures Found(docs, relevant) <= |docs|
    ensures |SetOf(docs)| <= |docs|
    decreases |docs|
  {
    assert relevant == SetOf(docs) * relevant + (relevant - SetOf(docs));
    if docs != [] {
      var n := |docs| - 1;
      assert docs == docs[..n] + [docs[n]];
      FoundBounds(docs[..n], relevant);
      FoundSnoc(docs[..n], docs[n], relevant);
    }
  }

  lemma {:induction false} FoundMonotone(docs: seq<Doc>, relevant: set<Doc>, n: nat)
    requires n <= |docs|
    ensures Found(docs[..n], relevant) <= Found(docs, relevant)
  {
    var a, b := SetOf(docs[..n]) * relevant, SetOf(docs) * relevant;
    assert b == a + (b - a);
  }

  /** The found documents fill the first ranks without a gap. */
  predicate Packed(docs: seq<Doc>, relevant: set<Doc>) {
    FoundBounds(docs, relevant);
    var h := Found(docs, relevant);
    Found(docs[..h], relevant) == h
  }

  /** Credit never exceeds the ideal credit of what was found, and reaches it exactly when the found
      documents fill the first ranks. */
  ghost predicate WithinIdeal(docs: seq<Doc>, relevant: set<Doc>, g: Gain) {
    && 0.0 <= Credit(docs, relevant, g) <= Ideal(Found(docs, relevant), g)
    && (Credit(docs, relevant, g) == Ideal(Found(docs, relevant), g) <==> Packed(docs, relevant))
  }

  lemma {:induction false} CreditAtMostIdeal(docs: seq<Doc>, relevant: set<Doc>, g: Gain)
    requires Falling(g)
    ensures WithinIdeal(docs, relevant, g)
    decreases |docs|
  {
    if docs != [] {
      var n := |docs| - 1;
      var before, doc := docs[..n], docs[n];
      assert docs == before + [doc];
      CreditAtMostIdeal(before, relevant, g);
      if doc in relevant && doc !in before {
        NewHitWithinIdeal(before, doc, relevant, g);
      } else {
        NoHitWithinIdeal(before, doc, relevant, g);
      }
    }
  }

  lemma NewHitWithinIdeal(before: seq<Doc>, doc: Doc, relevant: set<Doc>, g: Gain)
    requires Falling(g) && WithinIdeal(before, relevant, g) && doc in relevant && doc !in before
    ensures WithinIdeal(before + [doc], relevant, g)
  {
    hide Credit, Found, Packed;
    var h, n := Found(before, relevant), |before|;
    FoundSnoc(before, doc, relevant);
    FoundBounds(before, relevant);
    CreditSnoc(before, doc, relevant, g);
    assert Ideal(h + 1, g) == Ideal(h, g) + g(h, h + 1);
    if h < n {
      GapIsNotPacked(before, doc, relevant);
      assert g(h, n + 1) < g(h, h + 1);
    } else {
      FullIsPacked(before, relevant);
      FullIsPacked(before + [doc], relevant);
    }
  }

  lemma FullIsPacked(docs: seq<Doc>, relevant: set<Doc>)
    requires Found(docs, relevant) == |docs|
    ensures Packed(docs, relevant)
  {
    assert docs[..|docs|] == docs;
  }

  lemma NoHitWithinIdeal(before: seq<Doc>, doc: Doc, relevant: set<Doc>, g: Gain)
    requires WithinIdeal(before, relevant, g) && !(doc in relevant && doc !in before)
    ensures WithinIdeal(before + [doc], relevant, g)
  {
    hide Credit;
    FoundSnoc(before, doc, relevant);
    FoundBounds(before, relevant);
    CreditSnoc(before, doc, relevant, g);
    assert (before + [doc])[..Found(before, relevant)] == before[..Found(before, relevant)];
  }

  lemma GapIsNotPacked(before: seq<Doc>, doc: Doc, relevant: set<Doc>)
    requires doc in relevant && doc !in before && Found(before, relevant) < |before|
    ensures !Packed(before + [doc], relevant)
  {
    hide Found;
    var h := Found(before, relevant);
    FoundSnoc(before, doc, relevant);
    FoundMonotone(before, relevant, h + 1);
    assert (before + [doc])[..h + 1] == before[..h + 1];
  }

  lemma {:induction false} IdealMonotone(h: nat, m: nat, g: Gain)
    requires Falling(g) && h <= m
    ensures 0.0 <= Ideal(h, g) <= Ideal(m, g)
    ensures h < m ==> Ideal(h, g) < Ideal(m, g)
    ensures h > 0 ==> Ideal(h, g) > 0.0
    decreases m
  {
    if m > 0 {
      if h < m {
        IdealMonotone(h, m - 1, g);
      } else {
        IdealMonotone(h - 1, h - 1, g);
      }
    }
  }

  /** Moving a relevant document up past a non-relevant one never lowers the credit. */
  lemma {:induction false} SwapRaisesCredit(pre: seq<Doc>, other: Doc, doc: Doc, post: seq<Doc>,
                                            relevant: set<Doc>, g: Gain)
    requires Falling(g) && doc in relevant && other !in relevant
    ensures Credit(pre + [other, doc] + post, relevant, g) <= Credit(pre + [doc, other] + post, relevant, g)
    decreases |post|
  {
    hide Credit, Found;
    if post == [] {
      SwapLast(pre, other, doc, relevant, g);
      assert pre + [other, doc] + post == pre + [other] + [doc] && pre + [doc, other] + post == pre + [doc] + [other];
    } else {
      var n := |post| - 1;
      var low, high := pre + [other, doc] + post[..n], pre + [doc, other] + post[..n];
      assert pre + [other, doc] + post == low + [post[n]] && pre + [doc, other] + post == high + [post[n]];
      SwapRaisesCredit(pre, other, doc, post[..n], relevant, g);
      SwapSameFound(pre, other, doc, post[..n], relevant);
      CreditSnoc(low, post[n], relevant, g);
      CreditSnoc(high, post[n], relevant, g);
      assert post[n] in low <==> post[n] in SetOf(low);
      assert post[n] in high <==> post[n] in SetOf(high);
    }
  }

  lemma SwapSameFound(pre: seq<Doc>, other: Doc, doc: Doc, post: seq<Doc>, relevant: set<Doc>)
    ensures SetOf(pre + [other, doc] + post) == SetOf(pre + [doc, other] + post)
    ensures Found(pre + [other, doc] + post, relevant) == Found(pre + [doc, other] + post, relevant)
  {
  }

  lemma SwapLast(pre: seq<Doc>, other: Doc, doc: Doc, relevant: set<Doc>, g: Gain)
    requires Falling(g) && doc in relevant && other !in relevant
    ensures Credit(pre + [other] + [doc], relevant, g) <= Credit(pre + [doc] + [other], relevant, g)
  {
    hide Credit, Found;
    CreditSnoc(pre, other, relevant, g);
    CreditSnoc(pre + [other], doc, relevant, g);
    CreditSnoc(pre, doc, relevant, g);
    CreditSnoc(pre + [doc], other, relevant, g);
    FoundSnoc(pre, other, relevant);
  }

  lemma SwapRaisesCutCredit(pre: seq<Doc>, other: Doc, doc: Doc, post: seq<Doc>, relevant: set<Doc>, g: Gain, k: int)
    requires Falling(g) && doc in relevant && other !in relevant
    ensures Credit(Slice(pre + [other, doc] + post, k), relevant, g)
         <= Credit(Slice(pre + [doc, other] + post, k), relevant, g)
  {
    var low, high := pre + [other, doc] + post, pre + [doc, other] + post;
    var n := |Slice(low, k)|;
    assert Slice(low, k) == low[..n] && Slice(high, k) == high[..n];
    if n >= |pre| + 2 {
      assert low[..n] == pre + [other, doc] + post[..n - |pre| - 2];
      assert high[..n] == pre + [doc, other] + post[..n - |pre| - 2];
      SwapRaisesCredit(pre, other, doc, post[..n - |pre| - 2], relevant, g);
    } else if n == |pre| + 1 {
      assert low[..n] == pre + [other] && high[..n] == pre + [doc];
      CreditSnoc(pre, other, relevant, g);
      CreditSnoc(pre, doc, relevant, g);
    } else {
      assert low[..n] == high[..n];
    }
  }

  // ---------------------------------------------------------------- the metrics

  function Discounted(discount: nat -> real): Gain {
    (j: nat, r: nat) => discount(r)
  }

  /** hits / rank, counting the document itself. */
  function Precisions(): Gain {
    (j: nat, r: nat) => if r == 0 then 1.0 else (j + 1) as real / r as real
  }

  lemma PrecisionGain(found: nat, rank: nat)
    requires rank >= 1
    ensures Precisions()(found, rank) == (found + 1) as real / rank as real
  {
  }

  ghost predicate IsDiscount(discount: nat -> real) {
    && (forall r: nat :: r >= 1 ==> discount(r) > 0.0)
    && (forall r: nat, q: nat :: 1 <= r < q ==> discount(r) > discount(q))
  }

  lemma PrecisionsFall()
    ensures Falling(Precisions())
    ensures forall h: nat :: Ideal(h, Precisions()) == h as real
  {
    var g := Precisions();
    forall j: nat, r: nat, q: nat | 1 <= r < q ensures g(j, r) > g(j, q) && g(j, r) > 0.0 && g(j, q) > 0.0 {
      Fractions(j + 1, r, q);
    }
    forall j: nat, r: nat | r >= 1 ensures g(j, r) > 0.0 {
      Fractions(j + 1, r, r + 1);
    }
    forall h: nat ensures Ideal(h, g) == h as real {
      IdealPrecision(h);
    }
  }

  lemma Fractions(n: nat, r: nat, q: nat)
    requires n >= 1 && 1 <= r < q
    ensures n as real / r as real > n as real / q as real > 0.0
  {
    var a, b, c := n as real, r as real, q as real;
    assert (a / b) * b == a && (a / c) * c == a;
  }

  lemma {:induction false} IdealPrecision(h: nat)
    ensures Ideal(h, Precisions()) == h as real
  {
    if h > 0 {
      IdealPrecision(h - 1);
      assert h as real / h as real == 1.0;
    }
  }

  lemma DiscountFalls(discount: nat -> real)
    requires IsDiscount(discount)
    ensures Falling(Discounted(discount))
  {
  }

  function Min(a: int, b: int): int {
    if a <= b then a else b
  }

  /** `recall_at_k` */
  function RecallAtK(retrieved: seq<Doc>, relevant: set<Doc>, k: int): real {
    if relevant == {} then 0.0 else Found(Slice(retrieved, k), relevant) as real / |relevant| as real
  }

  /** `precision_at_k` */
  function PrecisionAtK(retrieved: seq<Doc>, relevant: set<Doc>, k: int): real {
    if k == 0 then 0.0 else Found(Slice(retrieved, k), relevant) as real / k as real
  }

  function IdealHits(relevant: set<Doc>, k: int): nat {
    if Min(|relevant|, k) < 0 then 0 else Min(|relevant|, k)
  }

  function NdcgAtK(retrieved: seq<Doc>, relevant: set<Doc>, k: int, discount: nat -> real): real {
    var idcg := Ideal(IdealHits(relevant, k), Discounted(discount));
    if idcg > 0.0 then Credit(Slice(retrieved, k), relevant, Discounted(discount)) / idcg else 0.0
  }

  function AveragePrecision(retrieved: seq<Doc>, relevant: set<Doc>): real {
    if relevant == {} then 0.0 else Credit(retrieved, relevant, Precisions()) / |relevant| as real
  }

  /** One round of the loops of both metrics; `seen` are the relevant documents found so far. */
  lemma SeenStep(before: seq<Doc>, doc: Doc, relevant: set<Doc>, seen: set<Doc>, g: Gain)
    requires seen == SetOf(before) * relevant
    ensures var isNew := doc in relevant && doc !in seen;
            && (if isNew then seen + {doc} else seen) == SetOf(before + [doc]) * relevant
            && Credit(before + [doc], relevant, g)
               == Credit(before, relevant, g) + if isNew then g(|seen|, |before| + 1) else 0.0
  {
    hide Credit, Found, SetOf;
    CreditSnoc(before, doc, relevant, g);
    FoundSnoc(before, doc, relevant);
    SetStep(SetOf(before), doc, relevant);
    AboutFound(before, doc, relevant);
  }

  lemma SetStep(docs: set<Doc>, doc: Doc, relevant: set<Doc>)
    ensures (docs + {doc}) * relevant
         == if doc in relevant && doc !in docs * relevant then docs * relevant + {doc} else docs * relevant
  {
  }

  lemma AboutFound(before: seq<Doc>, doc: Doc, relevant: set<Doc>)
    ensures doc in SetOf(before) <==> doc in before
    ensures Found(before, relevant) == |SetOf(before) * relevant|
  {
  }

  lemma NothingYet(docs: seq<Doc>, relevant: set<Doc>, g: Gain)
    ensures SetOf(docs[..0]) * relevant == {} && Credit(docs[..0], relevant, g) == 0.0
  {
  }

  lemma IdealStart(g: Gain)
    ensures Ideal(0, g) == 0.0
  {
  }

  lemma IdealNext(h: nat, g: Gain)
    ensures Ideal(h + 1, g) == Ideal(h, g) + g(h, h + 1)
  {
  }

  /** `ndcg_at_k` */
  method ComputeNdcg(retrieved: seq<Doc>, relevant: set<Doc>, k: int, discount: nat -> real) returns (r: real)
    ensures r == NdcgAtK(retrieved, relevant, k, discount)
  {
    var docs := Slice(retrieved, k);
    var seen: set<Doc> := {};
    var dcg := 0.0;
    NothingYet(docs, relevant, Discounted(discount));
    hide Credit, SetOf, Slice, Ideal;
    IdealStart(Discounted(discount));
    for i := 0 to |docs|
      invariant seen == SetOf(docs[..i]) * relevant
      invariant dcg == Credit(docs[..i], relevant, Discounted(discount))
    {
      var doc := docs[i];
      assert docs[..i + 1] == docs[..i] + [doc];
      SeenStep(docs[..i], doc, relevant, seen, Discounted(discount));
      if doc in relevant && doc !in seen {
        dcg := dcg + discount(i + 1);
        seen := seen + {doc};
      }
    }
    assert docs[..|docs|] == docs;
    var idcg := 0.0;
    for rank := 0 to IdealHits(relevant, k)
      invariant idcg == Ideal(rank, Discounted(discount))
    {
      IdealNext(rank, Discounted(discount));
      idcg := idcg + discount(rank + 1);
    }
    r := if idcg > 0.0 then dcg / idcg else 0.0;
  }

  /** `average_precision` */
  method ComputeAveragePrecision(retrieved: seq<Doc>, relevant: set<Doc>) returns (r: real)
    ensures r == AveragePrecision(retrieved, relevant)
  {
    if relevant == {} {
      return 0.0;
    }
    var hits := 0;
    var total := 0.0;
    var seen: set<Doc> := {};
    NothingYet(retrieved, relevant, Precisions());
    hide Credit, SetOf, Precisions;
    for i := 0 to |retrieved|
      invariant seen == SetOf(retrieved[..i]) * relevant && hits == |seen|
      invariant total == Credit(retrieved[..i], relevant, Precisions())
    {
      var doc := retrieved[i];
      assert retrieved[..i + 1] == retrieved[..i] + [doc];
      SeenStep(retrieved[..i], doc, relevant, seen, Precisions());
      PrecisionGain(|seen|, i + 1);
      if doc in relevant && doc !in seen {
        hits := hits + 1;
        total := total + hits as real / (i + 1) as real;
        seen := seen + {doc};
      }
    }
    assert retrieved[..|retrieved|] == retrieved;
    r := total / |relevant| as real;
  }

  /** `mean_reciprocal_rank` */
  method MeanReciprocalRank(retrieved: seq<Doc>, relevant: set<Doc>) returns (r: real)
    ensures r == 0.0 <==> forall i :: 0 <= i < |retrieved| ==> retrieved[i] !in relevant
    ensures r != 0.0 ==> exists i :: 0 <= i < |retrieved| && retrieved[i] in relevant && r == 1.0 / (i + 1) as real
                                  && forall j :: 0 <= j < i ==> retrieved[j] !in relevant
    ensures 0.0 <= r <= 1.0
  {
    for i := 0 to |retrieved|
      invariant forall j :: 0 <= j < i ==> retrieved[j] !in relevant
    {
      if retrieved[i] in relevant {
        return 1.0 / (i + 1) as real;
      }
    }
    return 0.0;
  }

  // ---------------------------------------------------------------- theorems

  lemma Share(n: nat, d: nat)
    requires n <= d && d > 0
    ensures 0.0 <= n as real / d as real <= 1.0
  {
  }

  lemma SliceLength<T>(s: seq<T>, k: int)
    ensures k >= 0 ==> |Slice(s, k)| <= k
  {
  }

  /** Recall is a share, for any retrieved list and any cut-off. */
  lemma RecallIsShare(retrieved: seq<Doc>, relevant: set<Doc>, k: int)
    ensures 0.0 <= RecallAtK(retrieved, relevant, k) <= 1.0
  {
    FoundBounds(Slice(retrieved, k), relevant);
    if relevant != {} {
      Share(Found(Slice(retrieved, k), relevant), |relevant|);
    }
  }

  /** Precision is a share exactly when the cut-off is not negative, or nothing is found. */
  lemma PrecisionIsShareIff(retrieved: seq<Doc>, relevant: set<Doc>, k: int)
    ensures 0.0 <= PrecisionAtK(retrieved, relevant, k) <= 1.0
       <==> k >= 0 || SetOf(Slice(retrieved, k)) !! relevant
  {
    var found := Found(Slice(retrieved, k), relevant);
    FoundBounds(Slice(retrieved, k), relevant);
    SliceLength(retrieved, k);
    assert found == 0 <==> SetOf(Slice(retrieved, k)) * relevant == {};
    if k > 0 {
      Share(found, k);
    } else if k < 0 && found > 0 {
      assert found as real / k as real * k as real == found as real;
    }
  }

  lemma NdcgCreditBound(retrieved: seq<Doc>, relevant: set<Doc>, k: int, discount: nat -> real)
    requires IsDiscount(discount)
    ensures var docs, g := Slice(retrieved, k), Discounted(discount);
            && 0.0 <= Credit(docs, relevant, g)
            && (k >= 0 ==> Found(docs, relevant) <= IdealHits(relevant, k))
            && (k >= 0 ==>
                  Credit(docs, relevant, g) <= Ideal(Found(docs, relevant), g) <= Ideal(IdealHits(relevant, k), g))
  {
    var docs, g := Slice(retrieved, k), Discounted(discount);
    DiscountFalls(discount);
    CreditAtMostIdeal(docs, relevant, g);
    FoundBounds(docs, relevant);
    SliceLength(retrieved, k);
    if k >= 0 {
      IdealMonotone(Found(docs, relevant), IdealHits(relevant, k), g);
    }
  }

  lemma QuotientShare(n: real, d: real)
    requires 0.0 <= n <= d && d > 0.0
    ensures 0.0 <= n / d <= 1.0
    ensures n / d == 1.0 <==> n == d
  {
    assert n / d * d == n;
  }

  /** nDCG lies between 0 and 1 for any retrieved list, duplicates included. */
  lemma NdcgIsShare(retrieved: seq<Doc>, relevant: set<Doc>, k: int, discount: nat -> real)
    requires IsDiscount(discount)
    ensures 0.0 <= NdcgAtK(retrieved, relevant, k, discount) <= 1.0
  {
    NdcgCreditBound(retrieved, relevant, k, discount);
    var g := Discounted(discount);
    if Ideal(IdealHits(relevant, k), g) > 0.0 {
      QuotientShare(Credit(Slice(retrieved, k), relevant, g), Ideal(IdealHits(relevant, k), g));
    }
  }

  /** nDCG is 1 exactly when the first min(|relevant|, k) ranks hold that many different relevant
      documents. */
  lemma NdcgIsOneIff(retrieved: seq<Doc>, relevant: set<Doc>, k: nat, discount: nat -> real)
    requires IsDiscount(discount) && relevant != {} && k >= 1
    ensures var m := IdealHits(relevant, k);
            NdcgAtK(retrieved, relevant, k, discount) == 1.0
            <==> m <= |retrieved| && Found(retrieved[..m], relevant) == m
  {
    hide Credit, Found, Ideal, Slice, SetOf, Discounted, IdealHits;
    var docs, g, m := Slice(retrieved, k), Discounted(discount), IdealHits(relevant, k);
    var h := Found(docs, relevant);
    NdcgCreditBound(retrieved, relevant, k, discount);
    DiscountFalls(discount);
    SomeIdealHits(relevant, k);
    IdealMonotone(h, m, g);
    IdealMonotone(m, m, g);
    CreditAtMostIdeal(docs, relevant, g);
    QuotientShare(Credit(docs, relevant, g), Ideal(m, g));
    TopHits(retrieved, relevant, k);
  }

  lemma SomeIdealHits(relevant: set<Doc>, k: nat)
    requires relevant != {} && k >= 1
    ensures IdealHits(relevant, k) >= 1
  {
    assert |relevant| > 0;
  }

  /** The cut list finds as many as it can without a gap exactly when its first m ranks are all hits. */
  lemma TopHits(retrieved: seq<Doc>, relevant: set<Doc>, k: nat)
    ensures var docs, m := Slice(retrieved, k), IdealHits(relevant, k);
            Found(docs, relevant) == m && Packed(docs, relevant)
            <==> m <= |retrieved| && Found(retrieved[..m], relevant) == m
  {
    var docs, m := Slice(retrieved, k), IdealHits(relevant, k);
    FoundBounds(docs, relevant);
    if m <= |retrieved| {
      assert retrieved[..m] == docs[..m];
      FoundMonotone(docs, relevant, m);
    }
  }

  /** Average precision lies between 0 and 1 for any retrieved list, duplicates included. */
  lemma AveragePrecisionIsShare(retrieved: seq<Doc>, relevant: set<Doc>)
    ensures 0.0 <= AveragePrecision(retrieved, relevant) <= 1.0
  {
    PrecisionsFall();
    CreditAtMostIdeal(retrieved, relevant, Precisions());
    FoundBounds(retrieved, relevant);
    if relevant != {} {
      QuotientShare(Credit(retrieved, relevant, Precisions()), |relevant| as real);
    }
  }

  /** Average precision is 1 exactly when the relevant documents fill the first |relevant| ranks. */
  lemma AveragePrecisionIsOneIff(retrieved: seq<Doc>, relevant: set<Doc>)
    requires relevant != {}
    ensures AveragePrecision(retrieved, relevant) == 1.0
       <==> |relevant| <= |retrieved| && SetOf(retrieved[..|relevant|]) == relevant
  {
    var h, m := Found(retrieved, relevant), |relevant|;
    hide Credit, Found, Precisions, SetOf;
    PrecisionsFall();
    CreditAtMostIdeal(retrieved, relevant, Precisions());
    FoundBounds(retrieved, relevant);
    QuotientShare(Credit(retrieved, relevant, Precisions()), m as real);
    if m <= |retrieved| {
      FoundMonotone(retrieved, relevant, m);
      FillsIff(retrieved[..m], relevant);
    }
  }

  lemma FillsIff(top: seq<Doc>, relevant: set<Doc>)
    requires |top| == |relevant|
    ensures Found(top, relevant) == |relevant| <==> SetOf(top) == relevant
  {
    FoundBounds(top, relevant);
    var common := SetOf(top) * relevant;
    if SetOf(top) == relevant {
      assert common == relevant;
    }
    if |common| == |relevant| {
      SameSize(common, relevant);
      SameSize(common, SetOf(top));
    }
  }

  lemma SameSize(a: set<Doc>, b: set<Doc>)
    requires a <= b && |b| <= |a|
    ensures a == b
  {
    assert b == a + (b - a);
  }

  lemma QuotientMonotone(a: real, b: real, d: real)
    requires a <= b && d > 0.0
    ensures a / d <= b / d
  {
    assert a / d * d == a && b / d * d == b;
  }

  /** Swapping a relevant document with a non-relevant one directly above it never lowers average
      precision or nDCG. */
  lemma SwapNeverLowers(pre: seq<Doc>, other: Doc, doc: Doc, post: seq<Doc>, relevant: set<Doc>, k: int,
                        discount: nat -> real)
    requires doc in relevant && other !in relevant && IsDiscount(discount)
    ensures AveragePrecision(pre + [other, doc] + post, relevant)
         <= AveragePrecision(pre + [doc, other] + post, relevant)
    ensures NdcgAtK(pre + [other, doc] + post, relevant, k, discount)
         <= NdcgAtK(pre + [doc, other] + post, relevant, k, discount)
  {
    var low, high, g := pre + [other, doc] + post, pre + [doc, other] + post, Discounted(discount);
    PrecisionsFall();
    DiscountFalls(discount);
    SwapRaisesCredit(pre, other, doc, post, relevant, Precisions());
    SwapRaisesCutCredit(pre, other, doc, post, relevant, g, k);
    assert |relevant| > 0;
    QuotientMonotone(Credit(low, relevant, Precisions()), Credit(high, relevant, Precisions()), |relevant| as real);
    if Ideal(IdealHits(relevant, k), g) > 0.0 {
      QuotientMonotone(Credit(Slice(low, k), relevant, g), Credit(Slice(high, k), relevant, g),
                       Ideal(IdealHits(relevant, k), g));
    }
  }
}
