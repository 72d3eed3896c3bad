/** The incrementally maintained BM25 index, against what it would be if rebuilt from its
    current documents.  A document is its list of tokens. */
module Bm25 {
  import opened Ordering

  type Doc = seq<string>
  type Docs = map<string, Doc>

  /** Tuning constants, and the idf as a function of the number of documents and of those
      holding the term. */
  datatype Params = Params(k1: real, b: real, idf: (int, int) -> real)

  datatype Hit = Hit(id: string, score: real)

  // ---------------------------------------------------------------- what the index must hold

  function Count(doc: Doc, term: string): nat {
    if doc == [] then 0 else
      var before := Count(doc[..|doc| - 1], term);
      if doc[|doc| - 1] == term then before + 1 else before
  }

  lemma {:induction false} CountsMembers(doc: Doc, term: string)
    ensures Count(doc, term) >= 1 <==> term in doc
  {
    if doc != [] {
      CountsMembers(doc[..|doc| - 1], term);
      assert doc == doc[..|doc| - 1] + [doc[|doc| - 1]];
    }
  }

  ghost predicate CountsOf(freqs: map<string, nat>, doc: Doc) {
    && (forall t :: t in freqs <==> t in doc)
    && (forall t :: t in freqs ==> freqs[t] == Count(doc, t))
  }

  /** The documents that contain a term. */
  ghost function Holding(docs: Docs, term: string): set<string> {
    set d | d in docs && term in docs[d]
  }

  /** Document frequencies: one entry for each term that occurs, no entry for any other. */
  ghost predicate FrequenciesOf(df: map<string, nat>, docs: Docs) {
    && (forall t :: t in df <==> Holding(docs, t) != {})
    && (forall t :: t in df ==> df[t] == |Holding(docs, t)|)
  }

  ghost function TotalLength(docs: Docs, ids: set<string>): nat
    requires ids <= docs.Keys
  {
    if ids == {} then 0 else
      var d :| d in ids;
      |docs[d]| + TotalLength(docs, ids - {d})
  }

  lemma {:induction false} TotalLengthOfOneMore(docs: Docs, ids: set<string>, d: string)
    requires ids <= docs.Keys && d in ids
    ensures TotalLength(docs, ids) == |docs[d]| + TotalLength(docs, ids - {d})
  {
    var e :| e in ids && TotalLength(docs, ids) == |docs[e]| + TotalLength(docs, ids - {e});
    if e != d {
      TotalLengthOfOneMore(docs, ids - {e}, d);
      TotalLengthOfOneMore(docs, ids - {d}, e);
      assert ids - {e} - {d} == ids - {d} - {e};
    }
  }

  ghost function AverageLength(docs: Docs): real {
    if docs == map[] then 0.0 else (TotalLength(docs, docs.Keys) as real) / (|docs| as real)
  }

  // ---------------------------------------------------------------- scores and search

  /** What one query token adds to the score of a document that contains it. */
  function TermScore(p: Params, n: int, df: int, tf: int, dl: int, avg: real): real {
    var ratio := (dl as real) / (if avg == 0.0 then 1.0 else avg);
    var denom := (tf as real) + p.k1 * (1.0 - p.b + p.b * ratio);
    p.idf(n, df) * ((tf as real) * (p.k1 + 1.0)) / (if denom == 0.0 then 1.0 else denom)
  }

  ghost function Score(p: Params, docs: Docs, query: Doc, d: string): real
    requires d in docs
  {
    if query == [] then 0.0 else
      var term := query[|query| - 1];
      Score(p, docs, query[..|query| - 1], d) +
      (if term in docs[d] then
         TermScore(p, |docs|, |Holding(docs, term)|, Count(docs[d], term), |docs[d]|, AverageLength(docs))
       else 0.0)
  }

  predicate HitLe(x: Hit, y: Hit) {
    x.score > y.score || (x.score == y.score && TextLe(x.id, y.id))
  }

  lemma HitLeIsTotalOrder()
    ensures TotalPreorder(HitLe)
    ensures forall x, y :: HitLe(x, y) && HitLe(y, x) ==> x == y
  {
    TextLeIsTotalOrder();
  }

  ghost function AllHits(p: Params, docs: Docs, query: Doc): set<Hit> {
    set d | d in docs && Score(p, docs, query, d) > 0.0 :: Hit(d, Score(p, docs, query, d))
  }

  /** The full ranking: every positive score once, best first, ties by id. */
  ghost predicate Ranks(hits: seq<Hit>, p: Params, docs: Docs, query: Doc) {
    Sorted(hits, HitLe) && NoDuplicates(hits) && forall h :: h in hits <==> h in AllHits(p, docs, query)
  }

  /** The ranking is fixed by the documents: it does not depend on how the index came to hold them. */
  lemma RankingIsUnique(a: seq<Hit>, b: seq<Hit>, p: Params, docs: Docs, query: Doc)
    requires Ranks(a, p, docs, query) && Ranks(b, p, docs, query)
    ensures a == b
  {
    HitLeIsTotalOrder();
    SortedListIsUnique(a, b, HitLe);
  }

  /** A slice `[:k]`: a negative k drops that many from the end. */
  function FirstK<T>(s: seq<T>, k: int): seq<T> {
    if k >= |s| then s else if k >= 0 then s[..k] else if |s| + k >= 0 then s[..|s| + k] else []
  }

  ghost predicate TopHits(out: seq<Hit>, k: int, p: Params, docs: Docs, query: Doc) {
    exists all :: Ranks(all, p, docs, query) && out == FirstK(all, k)
  }

  /** Two searches over the same documents give the same list, however the documents arrived. */
  lemma SearchEqualsRebuild(a: seq<Hit>, b: seq<Hit>, k: int, p: Params, docs: Docs, query: Doc)
    requires TopHits(a, k, p, docs, query) && TopHits(b, k, p, docs, query)
    ensures a == b
  {
    var x :| Ranks(x, p, docs, query) && a == FirstK(x, k);
    var y :| Ranks(y, p, docs, query) && b == FirstK(y, k);
    RankingIsUnique(x, y, p, docs, query);
  }

  // ---------------------------------------------------------------- document frequency steps

  /** Documents holding the term, and one more for a term of the document being counted. */
  ghost function Tally(docs: Docs, extra: set<string>, term: string): nat {
    if term in extra then |Holding(docs, term)| + 1 else |Holding(docs, term)|
  }

  /** The table part way through counting one more document in or out. */
  ghost predicate Tallied(df: map<string, nat>, docs: Docs, extra: set<string>) {
    forall t :: (t in df <==> Tally(docs, extra, t) > 0) && (t in df ==> df[t] == Tally(docs, extra, t))
  }

  lemma FrequenciesAreTally(df: map<string, nat>, docs: Docs)
    ensures FrequenciesOf(df, docs) <==> Tallied(df, docs, {})
  {
    forall t ensures Tally(docs, {}, t) == |Holding(docs, t)| && (Tally(docs, {}, t) > 0 <==> Holding(docs, t) != {}) {
    }
  }

  /** Counting a document is counting each of its terms once. */
  lemma TallyOfOneMore(docs: Docs, d: string, terms: set<string>, term: string)
    requires d in docs && forall t :: t in terms <==> t in docs[d]
    ensures Tally(docs - {d}, terms, term) == Tally(docs, {}, term)
  {
    if term in docs[d] {
      assert Holding(docs, term) == Holding(docs - {d}, term) + {d};
    } else {
      assert Holding(docs, term) == Holding(docs - {d}, term);
    }
  }

  lemma FrequenciesWithOneMore(df: map<string, nat>, docs: Docs, d: string, terms: set<string>)
    requires d in docs && forall t :: t in terms <==> t in docs[d]
    ensures FrequenciesOf(df, docs) <==> Tallied(df, docs - {d}, terms)
  {
    hide Tally, FrequenciesOf;
    FrequenciesAreTally(df, docs);
    forall t ensures Tally(docs - {d}, terms, t) == Tally(docs, {}, t) {
      TallyOfOneMore(docs, d, terms, t);
    }
  }

  lemma TallyStep(docs: Docs, extra: set<string>, term: string)
    requires term !in extra
    ensures forall t ::
      Tally(docs, extra + {term}, t) == if t == term then Tally(docs, extra, t) + 1 else Tally(docs, extra, t)
  {
  }

  /** The id list names every document once. */
  ghost predicate Enumerates(ids: seq<string>, docs: Docs) {
    NoDuplicates(ids) && Elements(ids) == docs.Keys
  }

  /** The per-document tables hold the counts and the length of every document. */
  ghost predicate Describes(freqs: map<string, map<string, nat>>, lens: map<string, nat>, docs: Docs) {
    && freqs.Keys == docs.Keys && lens.Keys == docs.Keys
    && (forall d :: d in docs ==> CountsOf(freqs[d], docs[d]) && lens[d] == |docs[d]|)
  }

  lemma EnumeratesOneMore(ids: seq<string>, docs: Docs, d: string, doc: Doc)
    requires Enumerates(ids, docs) && d !in docs
    ensures Enumerates(ids + [d], docs[d := doc])
  {
    assert d !in Elements(ids);
  }

  lemma EnumeratesOneLess(ids: seq<string>, docs: Docs, i: nat)
    requires Enumerates(ids, docs) && i < |ids|
    ensures Enumerates(ids[..i] + ids[i + 1..], docs - {ids[i]})
  {
    assert ids == ids[..i] + [ids[i]] + ids[i + 1..];
  }

  lemma NoCountsNoTokens(freqs: map<string, nat>, doc: Doc)
    requires CountsOf(freqs, doc)
    ensures doc != [] ==> freqs != map[]
  {
    if doc != [] {
      assert doc[0] in freqs;
    }
  }

  lemma DescribesOneMore(freqs: map<string, map<string, nat>>, lens: map<string, nat>, docs: Docs,
                         d: string, counts: map<string, nat>, doc: Doc)
    requires Describes(freqs, lens, docs) && CountsOf(counts, doc)
    ensures Describes(freqs[d := counts], lens[d := |doc|], docs[d := doc])
  {
    hide CountsOf;
  }

  class BM25Index {
    const p: Params
    var docIds: seq<string>
    var docTokens: Docs
    var docFreqs: map<string, map<string, nat>>
    var df: map<string, nat>
    var docLen: map<string, nat>
    var avgLen: real

    ghost predicate DocsMatch()
      reads this
    {
      Enumerates(docIds, docTokens) && Describes(docFreqs, docLen, docTokens)
    }

    /** Everything the index stores is what its current documents determine. */
    ghost predicate Valid()
      reads this
    {
      DocsMatch() && FrequenciesOf(df, docTokens) && avgLen == AverageLength(docTokens)
    }

    constructor (p: Params)
      ensures Valid() && docTokens == map[] && this.p == p
    {
      this.p := p;
      docIds, docTokens, docFreqs, df, docLen, avgLen := [], map[], map[], map[], map[], 0.0;
    }

    method TermCounts(tokens: Doc) returns (freqs: map<string, nat>)
      ensures CountsOf(freqs, tokens)
    {
      freqs := map[];
      for i := 0 to |tokens|
        invariant CountsOf(freqs, tokens[..i])
      {
        var tok := tokens[i];
        assert tokens[..i + 1] == tokens[..i] + [tok];
        forall t { CountsMembers(tokens[..i], t); }
        freqs := freqs[tok := (if tok in freqs then freqs[tok] else 0) + 1];
      }
      assert tokens[..|tokens|] == tokens;
    }

    /** Add or replace a document. */
    method Add(docId: string, tokens: Doc)
      requires Valid()
      modifies this
      ensures Valid() && docTokens == old(docTokens)[docId := tokens]
    {
      hide CountsOf, FrequenciesOf, AverageLength, Enumerates, Describes;
      if docId in docTokens {
        Remove(docId);
      }
      ghost var rest := docTokens;
      EnumeratesOneMore(docIds, docTokens, docId, tokens);
      var freqs := TermCounts(tokens);
      DescribesOneMore(docFreqs, docLen, docTokens, docId, freqs, tokens);
      docIds := docIds + [docId];
      docTokens := docTokens[docId := tokens];
      docFreqs := docFreqs[docId := freqs];
      docLen := docLen[docId := |tokens|];
      assert docTokens - {docId} == rest;
      assert rest[docId := tokens] == old(docTokens)[docId := tokens];
      CountIn(docId, freqs);
      RecomputeAverage();
    }

    method CountIn(docId: string, freqs: map<string, nat>)
      requires docId in docTokens && CountsOf(freqs, docTokens[docId]) && FrequenciesOf(df, docTokens - {docId})
      modifies this`df
      ensures FrequenciesOf(df, docTokens)
    {
      hide Tally, FrequenciesOf;
      ghost var rest, done := docTokens - {docId}, {};
      FrequenciesAreTally(df, rest);
      var left := freqs.Keys;
      while left != {}
        invariant left !! done && left + done == freqs.Keys
        invariant Tallied(df, rest, done)
        decreases left
      {
        var term :| term in left;
        TallyStep(rest, done, term);
        df := df[term := (if term in df then df[term] else 0) + 1];
        left, done := left - {term}, done + {term};
      }
      assert done == freqs.Keys;
      FrequenciesWithOneMore(df, docTokens, docId, done);
    }

    method Remove(docId: string)
      requires DocsMatch() && FrequenciesOf(df, docTokens) && docId in docTokens
      modifies this
      ensures DocsMatch() && FrequenciesOf(df, docTokens) && docTokens == old(docTokens) - {docId}
    {
      hide CountsOf, FrequenciesOf;
      CountOut(docId);
      assert docId in Elements(docIds);
      var i :| 0 <= i < |docIds| && docIds[i] == docId;
      EnumeratesOneLess(docIds, docTokens, i);
      docIds := docIds[..i] + docIds[i + 1..];
      docTokens := docTokens - {docId};
      docFreqs := docFreqs - {docId};
      docLen := docLen - {docId};
    }

    method CountOut(docId: string)
      requires docId in docTokens && docId in docFreqs && CountsOf(docFreqs[docId], docTokens[docId])
      requires FrequenciesOf(df, docTokens)
      modifies this`df
      ensures FrequenciesOf(df, docTokens - {docId})
    {
      hide Tally, FrequenciesOf;
      ghost var rest := docTokens - {docId};
      var left := docFreqs[docId].Keys;
      FrequenciesWithOneMore(df, docTokens, docId, left);
      while left != {}
        invariant Tallied(df, rest, left)
        decreases left
      {
        var term :| term in left;
        TallyStep(rest, left - {term}, term);
        assert left - {term} + {term} == left;
        df := df[term := df[term] - 1];
        if df[term] <= 0 {
          df := df - {term};
        }
        left := left - {term};
      }
      FrequenciesAreTally(df, rest);
    }

    method RecomputeAverage()
      requires DocsMatch()
      modifies this`avgLen
      ensures avgLen == AverageLength(docTokens)
    {
      hide CountsOf, AverageLength, TotalLength;
      var total := 0;
      NoLength(docTokens);
      assert Elements(docIds[..0]) == {};
      for i := 0 to |docIds|
        invariant Elements(docIds[..i]) <= docTokens.Keys
        invariant total == TotalLength(docTokens, Elements(docIds[..i]))
      {
        OneMoreLength(docIds, docTokens, i);
        total := total + docLen[docIds[i]];
      }
      assert docIds[..|docIds|] == docIds;
      avgLen := if docIds == [] then 0.0 else (total as real) / (|docIds| as real);
      AverageOfTotal(docIds, docTokens);
    }

    method ScoreOf(query: Doc, docId: string) returns (score: real)
      requires Valid()
      ensures score == if docId in docTokens then Score(p, docTokens, query, docId) else 0.0
    {
      if docId !in docFreqs || docFreqs[docId] == map[] {
        if docId in docTokens {
          NoCountsNoTokens(docFreqs[docId], docTokens[docId]);
          EmptyDocScoresZero(p, docTokens, query, docId);
        }
        return 0.0;
      }
      var freqs, dl := docFreqs[docId], docLen[docId];
      SizeOfEnumeration(docIds, docTokens);
      score := 0.0;
      for i := 0 to |query|
        invariant score == Score(p, docTokens, query[..i], docId)
      {
        var term := query[i];
        assert query[..i + 1][..i] == query[..i];
        if term in freqs {
          assert docId in Holding(docTokens, term);
          score := score + TermScore(p, |docIds|, df[term], freqs[term], dl, avgLen);
        }
      }
      assert query[..|query|] == query;
    }

    /** Every document scored, in id-list order, keeping the positive scores. */
    method PositiveScores(query: Doc) returns (scored: seq<Hit>)
      requires Valid()
      ensures NoDuplicates(scored) && forall h :: h in scored <==> h in AllHits(p, docTokens, query)
    {
      hide Score, Describes, FrequenciesOf, AverageLength;
      scored := [];
      for i := 0 to |docIds|
        invariant forall h :: h in scored ==> h.id in docIds[..i]
        invariant NoDuplicates(scored)
        invariant forall d :: d in docIds[..i] ==> d in docTokens
        invariant forall d :: d in docIds[..i] ==>
          (Hit(d, Score(p, docTokens, query, d)) in scored <==> Score(p, docTokens, query, d) > 0.0)
        invariant forall h :: h in scored ==> h == Hit(h.id, Score(p, docTokens, query, h.id))
      {
        var d := docIds[i];
        assert docIds[..i + 1] == docIds[..i] + [d];
        assert d !in docIds[..i] && d in Elements(docIds);
        var s := ScoreOf(query, d);
        if s > 0.0 {
          scored := scored + [Hit(d, s)];
        }
      }
      assert docIds[..|docIds|] == docIds;
      ScoredAreHits(p, docTokens, query, docIds, scored);
    }

    method Search(query: Doc, topK: int) returns (out: seq<Hit>)
      requires Valid()
      ensures TopHits(out, topK, p, docTokens, query)
    {
      hide AllHits, HitLe;
      var scored := PositiveScores(query);
      HitLeIsTotalOrder();
      SortFacts(scored, HitLe);
      assert Ranks(Sort(scored, HitLe), p, docTokens, query);
      out := FirstK(Sort(scored, HitLe), topK);
    }
  }

  lemma ScoredAreHits(p: Params, docs: Docs, query: Doc, ids: seq<string>, scored: seq<Hit>)
    requires Elements(ids) == docs.Keys
    requires forall d :: d in ids ==> d in docs
    requires forall h :: h in scored ==> h.id in ids
    requires forall d :: d in ids ==> (Hit(d, Score(p, docs, query, d)) in scored <==> Score(p, docs, query, d) > 0.0)
    requires forall h :: h in scored ==> h == Hit(h.id, Score(p, docs, query, h.id))
    ensures forall h :: h in scored <==> h in AllHits(p, docs, query)
  {
    hide Score;
    forall h | h in AllHits(p, docs, query) ensures h in scored {
      assert h.id in Elements(ids);
    }
  }

  lemma NoLength(docs: Docs)
    ensures TotalLength(docs, {}) == 0
  {
  }

  lemma OneMoreLength(ids: seq<string>, docs: Docs, i: nat)
    requires Enumerates(ids, docs) && i < |ids| && Elements(ids[..i]) <= docs.Keys
    ensures ids[i] in docs && Elements(ids[..i + 1]) <= docs.Keys
    ensures TotalLength(docs, Elements(ids[..i + 1])) == TotalLength(docs, Elements(ids[..i])) + |docs[ids[i]]|
  {
    var d := ids[i];
    assert Elements(ids[..i + 1]) == Elements(ids[..i]) + {d};
    assert d !in ids[..i] && d in Elements(ids);
    TotalLengthOfOneMore(docs, Elements(ids[..i + 1]), d);
    assert Elements(ids[..i + 1]) - {d} == Elements(ids[..i]);
  }

  lemma AverageOfTotal(ids: seq<string>, docs: Docs)
    requires Enumerates(ids, docs)
    ensures AverageLength(docs) ==
      if ids == [] then 0.0 else (TotalLength(docs, Elements(ids)) as real) / (|ids| as real)
  {
    SizeOfEnumeration(ids, docs);
  }

  lemma SizeOfEnumeration(ids: seq<string>, docs: Docs)
    requires NoDuplicates(ids) && Elements(ids) == docs.Keys
    ensures |ids| == |docs| && (ids == [] <==> docs == map[])
  {
    DistinctCount(ids);
    assert |docs| == |docs.Keys|;
    if ids != [] { assert ids[0] in docs; }
  }

  lemma {:induction false} EmptyDocScoresZero(p: Params, docs: Docs, query: Doc, d: string)
    requires d in docs && docs[d] == []
    ensures Score(p, docs, query, d) == 0.0
  {
    if query != [] {
      EmptyDocScoresZero(p, docs, query[..|query| - 1], d);
    }
  }
}
