/** What scores and searches mean: how a score depends on the counts and lengths, what a search finds
    and in which order. */
module Bm25Laws {
  import opened Ordering
  import opened Reals
  import opened Bm25

  // ---------------------------------------------------------------- counts and lengths

  /** A term is counted as often as it occurs. */
  lemma {:induction false} CountIsMultiplicity(doc: Doc, term: string)
    ensures Count(doc, term) == multiset(doc)[term]
  {
    if doc != [] {
      var n := |doc| - 1;
      CountIsMultiplicity(doc[..n], term);
      assert doc == doc[..n] + [doc[n]];
    }
  }

  lemma {:induction false} TotalOfEqualLengths(docs: Docs, ids: set<string>, length: nat)
    requires ids <= docs.Keys && forall d :: d in ids ==> |docs[d]| == length
    ensures TotalLength(docs, ids) == length * |ids|
    decreases ids
  {
    if ids != {} {
      var d :| d in ids && TotalLength(docs, ids) == |docs[d]| + TotalLength(docs, ids - {d});
      TotalOfEqualLengths(docs, ids - {d}, length);
      assert length * |ids| == length + length * (|ids| - 1);
    }
  }

  /** Where all documents are of one length, that is the average. */
  lemma AverageOfEqualLengths(docs: Docs, length: nat)
    requires docs != map[] && forall d :: d in docs ==> |docs[d]| == length
    ensures AverageLength(docs) == length as real
  {
    hide TotalLength;
    TotalOfEqualLengths(docs, docs.Keys, length);
    assert |docs| == |docs.Keys| > 0;
    var n := |docs| as real;
    assert (length * |docs|) as real == (length as real) * n;
    QuotientOf(length as real, n);
  }

  lemma QuotientOf(x: real, n: real)
    requires n > 0.0
    ensures x * n / n == x
  {
  }

  lemma AverageIsPositive(docs: Docs, d: string)
    requires d in docs && docs[d] != []
    ensures AverageLength(docs) > 0.0
  {
    TotalLengthOfOneMore(docs, docs.Keys, d);
    assert |docs| == |docs.Keys|;
    assert docs.Keys != {};
    PositiveQuotient(TotalLength(docs, docs.Keys) as real, |docs| as real);
  }

  lemma PositiveQuotient(x: real, n: real)
    requires x > 0.0 && n > 0.0
    ensures x / n > 0.0
  {
    QuotientTimes(x, n);
    FactorGrows(0.0, x / n, n);
  }

  // ---------------------------------------------------------------- a saturating fraction

  /** The score q of tf occurrences: q * (tf + c) is m * tf, where c is what the length adds. */
  ghost predicate Saturates(q: real, tf: real, c: real, m: real) {
    tf > 0.0 && c > 0.0 && m > 0.0 && q * (tf + c) == m * tf
  }

  lemma SaturationBounds(q: real, tf: real, c: real, m: real)
    requires Saturates(q, tf, c, m)
    ensures 0.0 < q < m
  {
    PositiveProduct(m, tf);
    PositiveProduct(m, c);
    if q <= 0.0 { ProductGrows(q, 0.0, tf + c); }
    assert m * (tf + c) == m * tf + m * c;
    if q >= m { ProductGrows(m, q, tf + c); }
  }

  lemma MoreOccurrencesMore(q: real, r: real, tf: real, tf': real, c: real, m: real)
    requires Saturates(q, tf, c, m) && Saturates(r, tf', c, m) && tf < tf'
    ensures q < r
  {
    SaturationBounds(q, tf, c, m);
    SaturationBounds(r, tf', c, m);
    var d := tf' - tf;
    assert r * (tf' + c) == r * (tf + c) + r * d;
    assert m * tf' == m * tf + m * d;
    if r <= q {
      ProductGrows(r, q, tf + c);
      CancelFactor(m, r, d);
    }
  }

  lemma LongerLess(q: real, r: real, tf: real, c: real, c': real, m: real)
    requires Saturates(q, tf, c, m) && Saturates(r, tf, c', m) && c < c'
    ensures r < q
  {
    SaturationBounds(r, tf, c', m);
    var d := c' - c;
    assert r * (tf + c') == r * (tf + c) + r * d;
    PositiveProduct(r, d);
    if q <= r { ProductGrows(q, r, tf + c); }
  }

  // ---------------------------------------------------------------- one term

  /** Usual tuning, and a term that tells documents apart. */
  ghost predicate Tells(p: Params, docs: Docs, t: string) {
    p.k1 > 0.0 && 0.0 <= p.b <= 1.0 && p.idf(|docs|, |Holding(docs, t)|) > 0.0
  }

  ghost function Most(p: Params, docs: Docs, t: string): real {
    p.idf(|docs|, |Holding(docs, t)|) * (p.k1 + 1.0)
  }

  /** What a length adds below the fraction. */
  ghost function Slack(p: Params, dl: int, avg: real): real
    requires avg > 0.0
  {
    Weighted(p.k1, p.b, (dl as real) / avg)
  }

  /** k1, scaled by a mixture of one and the relative length x. */
  ghost function Weighted(k1: real, b: real, x: real): real {
    k1 * Blended(b, x)
  }

  ghost function Blended(b: real, x: real): real {
    1.0 - b + b * x
  }

  ghost function LengthTerm(p: Params, docs: Docs, d: string): real
    requires d in docs && docs[d] != []
  {
    AverageIsPositive(docs, d);
    Slack(p, |docs[d]|, AverageLength(docs))
  }

  lemma SingleTerm(p: Params, docs: Docs, t: string, d: string)
    requires d in docs
    ensures Score(p, docs, [t], d) == if t in docs[d]
      then TermScore(p, |docs|, |Holding(docs, t)|, Count(docs[d], t), |docs[d]|, AverageLength(docs)) else 0.0
  {
    hide AverageLength, TermScore, Holding, Count;
    assert [t][..0] == [];
    assert Score(p, docs, [], d) == 0.0;
  }

  lemma SlackIsPositive(p: Params, dl: int, avg: real)
    requires p.k1 > 0.0 && 0.0 <= p.b <= 1.0 && dl > 0 && avg > 0.0
    ensures Slack(p, dl, avg) > 0.0
  {
    hide Weighted;
    PositiveQuotient(dl as real, avg);
    PositiveMix(p.k1, p.b, (dl as real) / avg);
  }

  lemma PositiveMix(k: real, b: real, x: real)
    requires k > 0.0 && 0.0 <= b <= 1.0 && x > 0.0
    ensures Weighted(k, b, x) > 0.0
  {
    BlendedIsPositive(b, x);
    hide Blended;
    PositivePair(k, Blended(b, x));
  }

  lemma BlendedIsPositive(b: real, x: real)
    requires 0.0 <= b <= 1.0 && x > 0.0
    ensures Blended(b, x) > 0.0
  {
    if b > 0.0 { PositivePair(b, x); }
  }

  lemma PositivePair(x: real, y: real)
    requires x > 0.0 && y > 0.0
    ensures x * y > 0.0
  {
  }

  /** The score of one term, as a fraction that saturates. */
  lemma TermSaturates(p: Params, n: int, df: int, tf: int, dl: int, avg: real)
    requires p.k1 > 0.0 && 0.0 <= p.b <= 1.0 && p.idf(n, df) > 0.0 && tf > 0 && dl > 0 && avg > 0.0
    ensures Saturates(TermScore(p, n, df, tf, dl, avg), tf as real, Slack(p, dl, avg), p.idf(n, df) * (p.k1 + 1.0))
  {
    SlackIsPositive(p, dl, avg);
    PositiveProduct(p.idf(n, df), p.k1 + 1.0);
    FractionOfTerm(p, n, df, tf, dl, avg);
    hide TermScore, Slack;
    Regroup(p.idf(n, df), tf as real, p.k1 + 1.0);
  }

  lemma Regroup(i: real, tf: real, k: real)
    ensures i * (tf * k) == (i * k) * tf
  {
  }

  lemma FractionOfTerm(p: Params, n: int, df: int, tf: int, dl: int, avg: real)
    requires avg > 0.0 && (tf as real) + Slack(p, dl, avg) > 0.0
    ensures TermScore(p, n, df, tf, dl, avg) * ((tf as real) + Slack(p, dl, avg))
      == p.idf(n, df) * ((tf as real) * (p.k1 + 1.0))
  {
    QuotientTimes(p.idf(n, df) * ((tf as real) * (p.k1 + 1.0)), (tf as real) + Slack(p, dl, avg));
  }

  lemma HolderSaturates(p: Params, docs: Docs, t: string, d: string)
    requires Tells(p, docs, t) && d in docs && t in docs[d]
    ensures Saturates(Score(p, docs, [t], d), multiset(docs[d])[t] as real, LengthTerm(p, docs, d), Most(p, docs, t))
  {
    hide AverageLength, Score, Holding, Count, TermScore, Slack, Saturates;
    SingleTerm(p, docs, t, d);
    CountIsMultiplicity(docs[d], t);
    AverageIsPositive(docs, d);
    assert t in multiset(docs[d]);
    var n, df, tf, dl, avg := |docs|, |Holding(docs, t)|, Count(docs[d], t), |docs[d]|, AverageLength(docs);
    TermSaturates(p, n, df, tf, dl, avg);
    assert Score(p, docs, [t], d) == TermScore(p, n, df, tf, dl, avg) && tf == multiset(docs[d])[t];
    assert LengthTerm(p, docs, d) == Slack(p, dl, avg) && Most(p, docs, t) == p.idf(n, df) * (p.k1 + 1.0);
  }

  /** A holder scores above zero and below the idf times k1 + 1, whatever its length; any other
      document scores zero. */
  lemma HolderScores(p: Params, docs: Docs, t: string, d: string)
    requires Tells(p, docs, t) && d in docs
    ensures if t in docs[d] then 0.0 < Score(p, docs, [t], d) < p.idf(|docs|, |Holding(docs, t)|) * (p.k1 + 1.0)
            else Score(p, docs, [t], d) == 0.0
  {
    hide Score, LengthTerm, Saturates, Holding, TermScore, Count, AverageLength;
    SingleTerm(p, docs, t, d);
    if t in docs[d] {
      HolderSaturates(p, docs, t, d);
      SaturationBounds(Score(p, docs, [t], d), multiset(docs[d])[t] as real, LengthTerm(p, docs, d), Most(p, docs, t));
    }
  }

  lemma LengthOnly(p: Params, docs: Docs, d: string, e: string)
    requires d in docs && e in docs && docs[d] != [] && docs[e] != [] && p.k1 > 0.0
    ensures |docs[d]| == |docs[e]| ==> LengthTerm(p, docs, d) == LengthTerm(p, docs, e)
    ensures p.b > 0.0 && |docs[d]| < |docs[e]| ==> LengthTerm(p, docs, d) < LengthTerm(p, docs, e)
    ensures p.b == 0.0 ==> LengthTerm(p, docs, d) == p.k1
  {
    hide AverageLength, Weighted;
    AverageIsPositive(docs, d);
    var avg, x, y := AverageLength(docs), |docs[d]| as real, |docs[e]| as real;
    NoMixture(p.k1, x / avg);
    if p.b > 0.0 && x < y {
      QuotientGrows(x, y, avg);
      Affine(p.k1, p.b, x / avg, y / avg);
    }
  }

  lemma NoMixture(k: real, x: real)
    ensures Weighted(k, 0.0, x) == k
  {
  }

  lemma QuotientGrows(x: real, y: real, n: real)
    requires x < y && n > 0.0
    ensures x / n < y / n
  {
    QuotientTimes(x, n);
    QuotientTimes(y, n);
    FactorGrows(x / n, y / n, n);
  }

  lemma FactorGrows(x: real, y: real, n: real)
    requires n > 0.0 && x * n < y * n
    ensures x < y
  {
    if y <= x { ProductGrows(y, x, n); }
  }

  lemma Affine(k: real, b: real, x: real, y: real)
    requires k > 0.0 && b > 0.0 && x < y
    ensures Weighted(k, b, x) < Weighted(k, b, y)
  {
    BlendedGrows(b, x, y);
    hide Blended;
    StrictProduct(k, Blended(b, x), Blended(b, y));
  }

  lemma BlendedGrows(b: real, x: real, y: real)
    requires b > 0.0 && x < y
    ensures Blended(b, x) < Blended(b, y)
  {
    StrictProduct(b, x, y);
  }

  lemma StrictProduct(k: real, x: real, y: real)
    requires k > 0.0 && x < y
    ensures k * x < k * y
  {
    var d := y - x;
    PositivePair(k, d);
    assert k * d == k * y - k * x;
  }

  /** Of two documents of one length the one that holds the term more often scores more. */
  lemma ScoreGrowsWithCount(p: Params, docs: Docs, t: string, d: string, e: string)
    requires Tells(p, docs, t) && d in docs && e in docs && |docs[d]| == |docs[e]|
    requires multiset(docs[d])[t] < multiset(docs[e])[t]
    ensures Score(p, docs, [t], d) < Score(p, docs, [t], e)
  {
    hide Score, LengthTerm, Holding, Saturates, AverageLength, Most;
    assert t in multiset(docs[e]);
    HolderScores(p, docs, t, d);
    HolderScores(p, docs, t, e);
    if t in docs[d] {
      HolderSaturates(p, docs, t, d);
      HolderSaturates(p, docs, t, e);
      LengthOnly(p, docs, d, e);
      MoreOccurrencesMore(Score(p, docs, [t], d), Score(p, docs, [t], e),
                          multiset(docs[d])[t] as real, multiset(docs[e])[t] as real,
                          LengthTerm(p, docs, d), Most(p, docs, t));
    }
  }

  /** Of two documents that hold the term equally often the longer one scores less, unless b is zero. */
  lemma ScoreShrinksWithLength(p: Params, docs: Docs, t: string, d: string, e: string)
    requires Tells(p, docs, t) && p.b > 0.0 && d in docs && e in docs && |docs[d]| < |docs[e]|
    requires t in docs[d] && multiset(docs[d])[t] == multiset(docs[e])[t]
    ensures Score(p, docs, [t], e) < Score(p, docs, [t], d)
  {
    hide Score, LengthTerm, Holding, Saturates, AverageLength, Most;
    assert t in multiset(docs[d]);
    assert t in multiset(docs[e]);
    HolderSaturates(p, docs, t, d);
    HolderSaturates(p, docs, t, e);
    LengthOnly(p, docs, d, e);
    LongerLess(Score(p, docs, [t], d), Score(p, docs, [t], e), multiset(docs[d])[t] as real,
               LengthTerm(p, docs, d), LengthTerm(p, docs, e), Most(p, docs, t));
  }

  lemma HolderAtZero(p: Params, docs: Docs, t: string, d: string)
    requires Tells(p, docs, t) && p.b == 0.0 && d in docs && t in docs[d]
    ensures Saturates(Score(p, docs, [t], d), multiset(docs[d])[t] as real, p.k1, Most(p, docs, t))
  {
    hide Score, Holding, AverageLength, LengthTerm, Saturates, Most;
    HolderSaturates(p, docs, t, d);
    LengthOnly(p, docs, d, d);
  }

  /** The fraction the score is where lengths do not matter. */
  ghost function PlainScore(i: real, tf: real, k1: real): real
    requires tf + k1 > 0.0
  {
    i * tf * (k1 + 1.0) / (tf + k1)
  }

  lemma FractionAtZero(q: real, i: real, tf: real, k: real, m: real)
    requires Saturates(q, tf, k, m) && m == i * (k + 1.0)
    ensures q == PlainScore(i, tf, k)
  {
    IsQuotient(q, tf + k, m * tf);
    Regroup(i, tf, k + 1.0);
    assert i * tf * (k + 1.0) == i * (tf * (k + 1.0));
  }

  lemma IsQuotient(q: real, n: real, x: real)
    requires n > 0.0 && q * n == x
    ensures q == x / n
  {
    QuotientTimes(x, n);
    CancelBoth(q, x / n, n);
  }

  lemma CancelBoth(x: real, y: real, n: real)
    requires n > 0.0 && x * n == y * n
    ensures x == y
  {
    CancelFactor(x, y, n);
    CancelFactor(y, x, n);
  }

  /** Without length normalisation only the count matters: the score is idf * tf * (k1 + 1) / (tf + k1). */
  lemma ScoreWithoutLength(p: Params, docs: Docs, t: string, d: string)
    requires Tells(p, docs, t) && p.b == 0.0 && d in docs && t in docs[d]
    ensures var tf := multiset(docs[d])[t] as real;
            tf > 0.0 && Score(p, docs, [t], d) == PlainScore(p.idf(|docs|, |Holding(docs, t)|), tf, p.k1)
  {
    hide Score, Holding, PlainScore;
    HolderAtZero(p, docs, t, d);
    FractionAtZero(Score(p, docs, [t], d), p.idf(|docs|, |Holding(docs, t)|), multiset(docs[d])[t] as real, p.k1,
                   Most(p, docs, t));
  }

  /** The tokens of a query add up. */
  lemma {:induction false} ScoreAdds(p: Params, docs: Docs, q: Doc, r: Doc, d: string)
    requires d in docs
    ensures Score(p, docs, q + r, d) == Score(p, docs, q, d) + Score(p, docs, r, d)
  {
    hide TermScore, AverageLength, Holding;
    if r == [] {
      assert q + r == q;
    } else {
      assert (q + r)[..|q + r| - 1] == q + r[..|r| - 1];
      ScoreAdds(p, docs, q, r[..|r| - 1], d);
    }
  }

  // ---------------------------------------------------------------- searches

  /** With room for all, a search for a term that tells finds exactly the documents that hold it. */
  lemma SearchFindsHolders(p: Params, docs: Docs, t: string, topK: int, out: seq<Hit>, d: string)
    requires Tells(p, docs, t) && topK >= |docs| && TopHits(out, topK, p, docs, [t])
    ensures (exists hit :: hit in out && hit.id == d) <==> d in docs && t in docs[d]
  {
    hide Score, Holding, HitLe;
    var all :| Ranks(all, p, docs, [t]) && out == FirstK(all, topK);
    HitsAreFew(all, p, docs, [t]);
    if d in docs {
      HolderScores(p, docs, t, d);
      if t in docs[d] {
        assert Hit(d, Score(p, docs, [t], d)) in AllHits(p, docs, [t]);
      }
    }
  }

  /** No more hits than documents. */
  lemma HitsAreFew(all: seq<Hit>, p: Params, docs: Docs, query: Doc)
    requires Ranks(all, p, docs, query)
    ensures |all| <= |docs|
  {
    hide Score, HitLe;
    var ids := set h | h in AllHits(p, docs, query) :: h.id;
    assert ids <= docs.Keys;
    DistinctCount(all);
    assert Elements(all) == AllHits(p, docs, query);
    NoMoreHitsThanIds(p, docs, query, AllHits(p, docs, query));
    SubsetSize(ids, docs.Keys);
  }

  lemma {:induction false} NoMoreHitsThanIds(p: Params, docs: Docs, query: Doc, hits: set<Hit>)
    requires hits <= AllHits(p, docs, query)
    ensures |hits| == |set h | h in hits :: h.id|
    decreases hits
  {
    hide Score;
    if hits != {} {
      var h :| h in hits;
      NoMoreHitsThanIds(p, docs, query, hits - {h});
      assert (set x | x in hits :: x.id) == (set x | x in hits - {h} :: x.id) + {h.id};
    }
  }

  lemma {:induction false} SubsetSize(a: set<string>, b: set<string>)
    requires a <= b
    ensures |a| <= |b|
    decreases a
  {
    if a != {} {
      var x :| x in a;
      SubsetSize(a - {x}, b - {x});
    }
  }

  /** Hits come best first, equals by id, and no more than asked for. */
  lemma SearchOrder(p: Params, docs: Docs, query: Doc, topK: nat, out: seq<Hit>, i: nat, j: nat)
    requires TopHits(out, topK, p, docs, query) && i < j < |out|
    ensures out[i].score > out[j].score || (out[i].score == out[j].score && TextLe(out[i].id, out[j].id))
    ensures |out| <= topK && out[i].score > 0.0 && out[i].id in docs
  {
    hide Score, TextLe;
    var all :| Ranks(all, p, docs, query) && out == FirstK(all, topK);
    assert out[i] == all[i] && out[j] == all[j] && all[i] in all;
    assert HitLe(all[i], all[j]);
  }
}
