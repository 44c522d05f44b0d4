/** What one more retrieved document is worth (eval/retrieval_metrics.py): together with the value of the
    empty list, each law determines its metric for every list. */
module MetricLaws {
  import opened PyText
  import opened RetrievalMetrics

  /** The document is relevant and has not been retrieved before. */
  predicate IsNew(before: seq<Doc>, doc: Doc, relevant: set<Doc>) {
    doc in relevant && doc !in before
  }

  lemma AddShares(a: real, b: real, n: real)
    requires n != 0.0
    ensures (a + b) / n == a / n + b / n
  {
  }

  /** Rank `k` (counted from 0) is of a relevant document that no rank before it holds. */
  predicate IsNewAt(retrieved: seq<Doc>, k: nat, relevant: set<Doc>) {
    k < |retrieved| && IsNew(retrieved[..k], retrieved[k], relevant)
  }

  lemma FoundAtNext(retrieved: seq<Doc>, relevant: set<Doc>, k: nat)
    ensures Found(Slice(retrieved, k + 1), relevant)
         == Found(Slice(retrieved, k), relevant) + if IsNewAt(retrieved, k, relevant) then 1 else 0
    ensures Found(Slice(retrieved, 0), relevant) == 0
  {
    assert Slice(retrieved, 0) == [];
    if k < |retrieved| {
      assert Slice(retrieved, k + 1) == retrieved[..k] + [retrieved[k]];
      FoundSnoc(retrieved[..k], retrieved[k], relevant);
    } else {
      assert Slice(retrieved, k + 1) == retrieved == Slice(retrieved, k);
    }
  }

  /** Raising the cut-off by one raises recall by 1 / |relevant| if the next document is new and relevant,
      and by nothing otherwise. */
  lemma RecallGain(retrieved: seq<Doc>, relevant: set<Doc>, k: nat)
    ensures RecallAtK(retrieved, relevant, 0) == 0.0
    ensures RecallAtK(retrieved, relevant, k + 1)
         == RecallAtK(retrieved, relevant, k)
            + if IsNewAt(retrieved, k, relevant) then 1.0 / |relevant| as real else 0.0
  {
    FoundAtNext(retrieved, relevant, k);
    hide Found, Slice;
    if relevant != {} {
      AddShares(Found(Slice(retrieved, k), relevant) as real, 1.0, |relevant| as real);
    }
  }

  /** Recall is 1 exactly if every relevant document is among the first k. */
  lemma RecallIsOneIff(retrieved: seq<Doc>, relevant: set<Doc>, k: nat)
    requires relevant != {}
    ensures RecallAtK(retrieved, relevant, k) == 1.0
       <==> forall d :: d in relevant ==> exists i :: 0 <= i < k && i < |retrieved| && retrieved[i] == d
  {
    var docs := Slice(retrieved, k);
    var found := SetOf(docs) * relevant;
    assert relevant == found + (relevant - found);
    assert RecallAtK(retrieved, relevant, k) == 1.0 <==> relevant - found == {} by {
      assert |relevant| == |found| + |relevant - found|;
      WholeShare(|found|, |relevant|);
    }
    forall d ensures d in docs <==> exists i :: 0 <= i < k && i < |retrieved| && retrieved[i] == d {
      if d in docs {
        var i :| 0 <= i < |docs| && docs[i] == d;
        assert retrieved[i] == d;
      }
      if i :| 0 <= i < k && i < |retrieved| && retrieved[i] == d {
        assert docs[i] == d;
      }
    }
  }

  lemma WholeShare(n: nat, d: nat)
    requires d >= 1
    ensures n as real / d as real == 1.0 <==> n == d
  {
  }

  /** Precision shares out among the ranks what recall shares out among the relevant documents. */
  lemma PrecisionAgainstRecall(retrieved: seq<Doc>, relevant: set<Doc>, k: int)
    requires relevant != {}
    ensures PrecisionAtK(retrieved, relevant, k) * k as real == RecallAtK(retrieved, relevant, k) * |relevant| as real
    ensures PrecisionAtK(retrieved, relevant, 0) == 0.0
  {
    hide RecallAtK, PrecisionAtK;
    PrecisionTimes(retrieved, relevant, k);
    RecallTimes(retrieved, relevant, k);
    NothingAtZero(retrieved, relevant);
  }

  lemma PrecisionTimes(retrieved: seq<Doc>, relevant: set<Doc>, k: int)
    ensures PrecisionAtK(retrieved, relevant, k) * k as real == Found(Slice(retrieved, k), relevant) as real
  {
    hide *;
    if k == 0 {
      NothingAtZero(retrieved, relevant);
    } else {
      PrecisionIs(retrieved, relevant, k);
      Multiply(PrecisionAtK(retrieved, relevant, k), Found(Slice(retrieved, k), relevant) as real, k as real);
    }
  }

  lemma NothingAtZero(retrieved: seq<Doc>, relevant: set<Doc>)
    ensures PrecisionAtK(retrieved, relevant, 0) == 0.0 && Found(Slice(retrieved, 0), relevant) == 0
  {
    FoundAtNext(retrieved, relevant, 0);
  }

  lemma PrecisionIs(retrieved: seq<Doc>, relevant: set<Doc>, k: int)
    requires k != 0
    ensures PrecisionAtK(retrieved, relevant, k) == Found(Slice(retrieved, k), relevant) as real / k as real
  {
    hide Found, Slice;
  }

  lemma Multiply(p: real, n: real, d: real)
    requires d != 0.0 && p == n / d
    ensures p * d == n
  {
  }

  lemma RecallTimes(retrieved: seq<Doc>, relevant: set<Doc>, k: int)
    requires relevant != {}
    ensures RecallAtK(retrieved, relevant, k) * |relevant| as real == Found(Slice(retrieved, k), relevant) as real
  {
    hide Found, Slice;
    Multiply(RecallAtK(retrieved, relevant, k), Found(Slice(retrieved, k), relevant) as real, |relevant| as real);
  }

  /** Without relevant documents both are 0. */
  lemma NothingRelevant(retrieved: seq<Doc>, k: int)
    ensures PrecisionAtK(retrieved, {}, k) == RecallAtK(retrieved, {}, k) == 0.0
  {
    assert SetOf(Slice(retrieved, k)) * {} == {};
  }

  /** A negative cut-off counts from the end. */
  lemma NegativeCutOff(retrieved: seq<Doc>, relevant: set<Doc>, k: int)
    requires k < 0
    ensures RecallAtK(retrieved, relevant, k)
         == RecallAtK(retrieved, relevant, if |retrieved| + k >= 0 then |retrieved| + k else 0)
  {
    assert Slice(retrieved, 0) == [];
  }

  /** A new relevant document at the end adds the precision at its own rank, shared among the relevant. */
  lemma AveragePrecisionGain(docs: seq<Doc>, doc: Doc, relevant: set<Doc>)
    requires relevant != {}
    ensures AveragePrecision([], relevant) == 0.0
    ensures AveragePrecision(docs + [doc], relevant)
         == AveragePrecision(docs, relevant)
            + if IsNew(docs, doc, relevant)
              then |set d | d in docs + [doc] && d in relevant| as real / (|docs| + 1) as real / |relevant| as real
              else 0.0
  {
    if IsNew(docs, doc, relevant) {
      NewHitGain(docs, doc, relevant);
    } else {
      OtherGain(docs, doc, relevant);
    }
    hide IsNew;
    NothingCredited(relevant, Precisions());
  }

  lemma OtherGain(docs: seq<Doc>, doc: Doc, relevant: set<Doc>)
    requires !IsNew(docs, doc, relevant)
    ensures AveragePrecision(docs + [doc], relevant) == AveragePrecision(docs, relevant)
  {
    CreditSnoc(docs, doc, relevant, Precisions());
  }

  lemma NewHitGain(docs: seq<Doc>, doc: Doc, relevant: set<Doc>)
    requires relevant != {} && IsNew(docs, doc, relevant)
    ensures AveragePrecision(docs + [doc], relevant)
         == AveragePrecision(docs, relevant)
            + |set d | d in docs + [doc] && d in relevant| as real / (|docs| + 1) as real / |relevant| as real
  {
    var g := Precisions();
    CreditSnoc(docs, doc, relevant, g);
    FoundSnoc(docs, doc, relevant);
    FoundIs(docs + [doc], relevant);
    PrecisionGain(Found(docs, relevant), |docs| + 1);
    AveragePrecisionIs(docs, relevant, g);
    AveragePrecisionIs(docs + [doc], relevant, g);
    assert |relevant| >= 1;
    hide *;
    var gain := |set d | d in docs + [doc] && d in relevant| as real / (|docs| + 1) as real;
    ShareGrows(Credit(docs, relevant, g), gain, Credit(docs + [doc], relevant, g), |relevant| as real,
               AveragePrecision(docs, relevant), AveragePrecision(docs + [doc], relevant));
  }

  lemma ShareGrows(credit: real, gain: real, more: real, n: real, before: real, after: real)
    requires n != 0.0 && more == credit + gain && before == credit / n && after == more / n
    ensures after == before + gain / n
  {
  }

  lemma AveragePrecisionIs(docs: seq<Doc>, relevant: set<Doc>, g: Gain)
    requires relevant != {} && g == Precisions()
    ensures AveragePrecision(docs, relevant) == Credit(docs, relevant, g) / |relevant| as real
  {
    hide Credit, Precisions;
  }

  lemma NothingCredited(relevant: set<Doc>, g: Gain)
    ensures Credit([], relevant, g) == 0.0
  {
  }

  lemma FoundIs(docs: seq<Doc>, relevant: set<Doc>)
    ensures Found(docs, relevant) == |set d | d in docs && d in relevant|
  {
    assert (set d | d in docs && d in relevant) == SetOf(docs) * relevant;
  }

  /** discount(1) + ... + discount(m) */
  function DiscountSum(discount: nat -> real, m: nat): real {
    if m == 0 then 0.0 else DiscountSum(discount, m - 1) + discount(m)
  }

  lemma {:induction false} IdealIsSum(discount: nat -> real, m: nat)
    ensures Ideal(m, Discounted(discount)) == DiscountSum(discount, m)
  {
    if m > 0 {
      IdealIsSum(discount, m - 1);
    }
  }

  lemma {:induction false} SumPositive(discount: nat -> real, m: nat)
    requires IsDiscount(discount)
    ensures DiscountSum(discount, m) >= 0.0 && (m >= 1 ==> DiscountSum(discount, m) > 0.0)
  {
    if m > 0 {
      SumPositive(discount, m - 1);
    }
  }

  /** A new relevant document within the cut-off adds the discount of its own rank, over the discounts of as
      many first ranks as there are relevant documents, or as the cut-off leaves; any other document adds
      nothing. */
  lemma NdcgGain(docs: seq<Doc>, doc: Doc, relevant: set<Doc>, k: nat, discount: nat -> real)
    requires relevant != {} && k >= 1 && IsDiscount(discount)
    ensures NdcgAtK([], relevant, k, discount) == 0.0
    ensures var best := DiscountSum(discount, if |relevant| <= k then |relevant| else k);
            best > 0.0 && NdcgAtK(docs + [doc], relevant, k, discount)
                       == NdcgAtK(docs, relevant, k, discount)
                          + if |docs| < k && IsNew(docs, doc, relevant) then discount(|docs| + 1) / best else 0.0
  {
    var m := if |relevant| <= k then |relevant| else k;
    assert |relevant| >= 1;
    SumPositive(discount, m);
    NdcgIs(docs, relevant, k, discount, m);
    NdcgIs(docs + [doc], relevant, k, discount, m);
    NdcgIs([], relevant, k, discount, m);
    CutCredit(docs, doc, relevant, k, discount);
    hide NdcgAtK, DiscountSum, CutCreditOf, IdealHits;
    if |docs| < k && IsNew(docs, doc, relevant) {
      ShareGrows(CutCreditOf(docs, relevant, k, discount), discount(|docs| + 1),
                 CutCreditOf(docs + [doc], relevant, k, discount), DiscountSum(discount, m),
                 NdcgAtK(docs, relevant, k, discount), NdcgAtK(docs + [doc], relevant, k, discount));
    }
  }

  function CutCreditOf(docs: seq<Doc>, relevant: set<Doc>, k: nat, discount: nat -> real): real {
    Credit(Slice(docs, k), relevant, Discounted(discount))
  }

  lemma CutCredit(docs: seq<Doc>, doc: Doc, relevant: set<Doc>, k: nat, discount: nat -> real)
    ensures CutCreditOf([], relevant, k, discount) == 0.0
    ensures CutCreditOf(docs + [doc], relevant, k, discount)
         == CutCreditOf(docs, relevant, k, discount)
            + if |docs| < k && IsNew(docs, doc, relevant) then discount(|docs| + 1) else 0.0
  {
    var none: seq<Doc> := [];
    assert Slice(none, k) == none;
    NothingCredited(relevant, Discounted(discount));
    if |docs| < k {
      assert Slice(docs + [doc], k) == docs + [doc] && Slice(docs, k) == docs;
      CreditSnoc(docs, doc, relevant, Discounted(discount));
    } else {
      assert Slice(docs + [doc], k) == Slice(docs, k);
    }
  }

  lemma NdcgIs(docs: seq<Doc>, relevant: set<Doc>, k: nat, discount: nat -> real, m: nat)
    requires m == IdealHits(relevant, k) && DiscountSum(discount, m) > 0.0
    ensures NdcgAtK(docs, relevant, k, discount) == CutCreditOf(docs, relevant, k, discount) / DiscountSum(discount, m)
  {
    IdealIsSum(discount, m);
    hide Credit, Slice, DiscountSum, IdealHits, Ideal;
  }

  /** With nothing relevant or no cut-off left, nDCG is 0. */
  lemma NdcgOfNothing(docs: seq<Doc>, relevant: set<Doc>, k: int, discount: nat -> real)
    requires relevant == {} || k <= 0
    ensures NdcgAtK(docs, relevant, k, discount) == 0.0
  {
  }
}
