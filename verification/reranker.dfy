/** Cross-encoder reranking: every candidate is paired with the score the
    cross-encoder gives to (query, candidate text), the pairs are sorted by
    descending score and the best `top_k` are kept (`src/reranker.py`). */
module Reranker {
  import opened Common
  import opened Ranking

  /** A candidate chunk as the orchestrator builds it: text, metadata, id. */
  datatype Candidate = Candidate(texto: string, metadata: Metadata, id: string)

  /** The cross-encoder: one relevance score per (query, text) pair. */
  type CrossEncoder = seq<(string, string)> -> seq<real>

  /** `[[query, d['texto']] for d in docs]`. */
  function SentencePairs(query: string, docs: seq<Candidate>): (r: seq<(string, string)>)
    ensures |r| == |docs| && forall i :: 0 <= i < |docs| ==> r[i] == (query, docs[i].texto)
  {
    seq(|docs|, i requires 0 <= i < |docs| => (query, docs[i].texto))
  }

  /** Each candidate with the score at its own index (`documento`,
      `score_rerank`). */
  function Scored(docs: seq<Candidate>, scores: seq<real>): (r: seq<(Candidate, real)>)
    requires |scores| == |docs|
    ensures |r| == |docs| && forall i :: 0 <= i < |docs| ==> r[i] == (docs[i], scores[i])
  {
    seq(|docs|, i requires 0 <= i < |docs| => (docs[i], scores[i]))
  }

  /** The reranked list: scored candidates by descending score, cut to
      `topK` with Python slice semantics. */
  function Reranked(docs: seq<Candidate>, scores: seq<real>, topK: int): seq<(Candidate, real)>
    requires |scores| == |docs|
  {
    SliceTo(SortDesc(Scored(docs, scores)), topK)
  }

  /** `RerankingSystem.rerank`. No candidates: nothing is scored and the
      result is empty. Otherwise the scores the cross-encoder returns for
      the sentence pairs are attached by index, then sorted and cut. */
  method Rerank(query: string, docs: seq<Candidate>, predict: CrossEncoder, topK: int)
    returns (r: seq<(Candidate, real)>)
    requires docs != [] ==> |predict(SentencePairs(query, docs))| == |docs|
    ensures docs == [] ==> r == []
    ensures docs != [] ==> r == Reranked(docs, predict(SentencePairs(query, docs)), topK)
  {
    if docs == [] {
      return [];
    }
    var sentencePairs := SentencePairs(query, docs);
    var scores := predict(sentencePairs);
    var resultados: seq<(Candidate, real)> := [];
    var i := 0;
    while i < |docs|
      invariant 0 <= i <= |docs|
      invariant resultados == Scored(docs, scores)[..i]
    {
      resultados := resultados + [(docs[i], scores[i])];
      i := i + 1;
    }
    assert resultados == Scored(docs, scores);
    var rankingNuevo := SortDesc(resultados);
    r := SliceTo(rankingNuevo, topK);
  }

  /** The reranked list has min(topK, |docs|) entries for a non-negative
      `topK`, in non-increasing score order, and its first entry carries the
      highest score of all candidates. */
  lemma RerankedShape(docs: seq<Candidate>, scores: seq<real>, topK: int)
    requires |scores| == |docs|
    ensures var r := Reranked(docs, scores, topK);
      && (topK >= 0 ==> |r| == Min(topK, |docs|))
      && SortedDesc(r)
      && (r != [] ==> forall i :: 0 <= i < |docs| ==> r[0].1 >= scores[i])
  {
    var s := Scored(docs, scores);
    var r := Reranked(docs, scores, topK);
    if r != [] {
      forall i | 0 <= i < |docs| ensures r[0].1 >= scores[i] {
        SortDescFirstIsMax(s, i);
      }
    }
  }

  /** Each entry pairs a candidate with the score at that candidate's own
      index, and no input position is used twice. */
  lemma RerankedFromInput(docs: seq<Candidate>, scores: seq<real>, topK: int)
    requires |scores| == |docs|
    ensures var r := Reranked(docs, scores, topK);
      && multiset(r) <= multiset(Scored(docs, scores))
      && forall t :: 0 <= t < |r| ==> exists i :: 0 <= i < |docs| && r[t] == (docs[i], scores[i])
  {
    var s := Scored(docs, scores);
    var sorted := SortDesc(s);
    var r := Reranked(docs, scores, topK);
    assert sorted == r + sorted[|r|..];
    assert multiset(sorted) == multiset(r) + multiset(sorted[|r|..]);
    forall t | 0 <= t < |r| ensures exists i :: 0 <= i < |docs| && r[t] == (docs[i], scores[i]) {
      SortDescMember(s, t);
      assert r[t] == sorted[t];
      var i :| 0 <= i < |s| && s[i] == r[t];
    }
  }

  /** Ties keep input order: for every score value, the reranked entries
      with that score are the first ones, in input order, among the
      candidates with that score. */
  lemma RerankedTiesKeepInputOrder(docs: seq<Candidate>, scores: seq<real>, topK: int, v: real)
    requires |scores| == |docs|
    ensures WithScore(Reranked(docs, scores, topK), v) <= WithScore(Scored(docs, scores), v)
  {
    var s := Scored(docs, scores);
    SortDescStable(s, v);
    WithScorePrefix(Reranked(docs, scores, topK), SortDesc(s), v);
  }
}
