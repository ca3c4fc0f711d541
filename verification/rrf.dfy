/** Hybrid retrieval: BM25 top-N selection over externally computed scores,
    Reciprocal Rank Fusion of a dense and a lexical ranking, and hydration
    of the fused ids from the collection (`src/rrf.py`). */
module Rrf {
  import opened Common
  import opened Ranking
  import opened TextUtils

  type Id = string

  // ---------------------------------------------------------------------------
  // Reciprocal Rank Fusion
  // ---------------------------------------------------------------------------

  /** The share of position `pos` of a ranking: 1/(k + pos + 1). */
  function Term(k: nat, pos: nat): (r: real)
    ensures r > 0.0
  {
    1.0 / ((k + pos + 1) as real)
  }

  /** What list `l` adds to the fused score of `id`: the sum of
      1/(k + p + 1) over every position p of `l` that holds `id`. */
  function Contribution(l: seq<Id>, k: nat, id: Id): real
  {
    if l == [] then 0.0
    else
      Contribution(l[..|l| - 1], k, id)
      + (if l[|l| - 1] == id then Term(k, |l| - 1) else 0.0)
  }

  /** The fused score of `id`. */
  function RrfScore(sem: seq<Id>, bm: seq<Id>, k: nat, id: Id): real
  {
    Contribution(sem, k, id) + Contribution(bm, k, id)
  }

  /** The score dictionary as Python builds it: one entry per id, in the
      order ids are first inserted (semantic ranking first, then BM25). */
  function FusedItems(sem: seq<Id>, bm: seq<Id>, k: nat): (r: seq<(Id, real)>)
    ensures Keys(r) == Dedup(sem + bm)
    ensures forall i :: 0 <= i < |r| ==> r[i].1 == RrfScore(sem, bm, k, r[i].0)
  {
    var d := Dedup(sem + bm);
    seq(|d|, i requires 0 <= i < |d| => (d[i], RrfScore(sem, bm, k, d[i])))
  }

  /** The fused ranking: the score dictionary sorted by descending score. */
  function Fused(sem: seq<Id>, bm: seq<Id>, k: nat): seq<(Id, real)>
  {
    SortDesc(FusedItems(sem, bm, k))
  }

  lemma DedupSnoc<T>(s: seq<T>, n: nat)
    requires n < |s|
    ensures Dedup(s[..n + 1]) ==
      if s[n] in Dedup(s[..n]) then Dedup(s[..n]) else Dedup(s[..n]) + [s[n]]
  {
    assert s[..n + 1][..n] == s[..n];
  }

  lemma ContributionSnoc(l: seq<Id>, n: nat, k: nat, id: Id)
    requires n < |l|
    ensures Contribution(l[..n + 1], k, id) ==
      Contribution(l[..n], k, id) + (if l[n] == id then Term(k, n) else 0.0)
  {
    assert l[..n + 1][..n] == l[..n];
  }

  /** An id that does not occur in a list gets nothing from it. */
  lemma {:induction false} ContributionAbsent(l: seq<Id>, k: nat, id: Id)
    requires id !in l
    ensures Contribution(l, k, id) == 0.0
  {
    if l != [] {
      ContributionAbsent(l[..|l| - 1], k, id);
    }
  }

  /** An id that occurs in a list gets a positive amount from it. */
  lemma {:induction false} ContributionPositive(l: seq<Id>, k: nat, id: Id)
    requires id in l
    ensures Contribution(l, k, id) > 0.0
  {
    var p := l[..|l| - 1];
    if id in p {
      ContributionPositive(p, k, id);
      ContributionNonNegative(p, k, id);
    } else {
      ContributionAbsent(p, k, id);
      assert l[|l| - 1] == id;
    }
  }

  lemma {:induction false} ContributionNonNegative(l: seq<Id>, k: nat, id: Id)
    ensures Contribution(l, k, id) >= 0.0
  {
    if l != [] {
      ContributionNonNegative(l[..|l| - 1], k, id);
    }
  }

  /** An id that occurs once, at position p, gets exactly 1/(k + p + 1);
      at the head of a list that is 1/(k + 1). */
  lemma {:induction false} ContributionSingle(l: seq<Id>, k: nat, id: Id, p: nat)
    requires p < |l| && l[p] == id
    requires forall q :: 0 <= q < |l| && q != p ==> l[q] != id
    ensures Contribution(l, k, id) == Term(k, p)
  {
    var init := l[..|l| - 1];
    if p == |l| - 1 {
      assert id !in init;
      ContributionAbsent(init, k, id);
    } else {
      ContributionSingle(init, k, id, p);
    }
  }

  /** An id found by both rankings outranks what either ranking alone would
      give it; an id found by only one ranking keeps that ranking's share. */
  lemma ConsensusOutranksSingle(sem: seq<Id>, bm: seq<Id>, k: nat, id: Id)
    ensures id in sem && id in bm ==>
      RrfScore(sem, bm, k, id) > Contribution(sem, k, id) &&
      RrfScore(sem, bm, k, id) > Contribution(bm, k, id)
    ensures id in sem && id !in bm ==> RrfScore(sem, bm, k, id) == Contribution(sem, k, id)
    ensures id !in sem && id in bm ==> RrfScore(sem, bm, k, id) == Contribution(bm, k, id)
    ensures id !in sem && id !in bm ==> RrfScore(sem, bm, k, id) == 0.0
  {
    if id in sem { ContributionPositive(sem, k, id); } else { ContributionAbsent(sem, k, id); }
    if id in bm { ContributionPositive(bm, k, id); } else { ContributionAbsent(bm, k, id); }
  }

  /** `fusionar_rrf`: the score dictionary is filled by two passes, one per
      ranking, then sorted by descending score. */
  method FuseRrf(rankingSem: seq<Id>, rankingBm25: seq<Id>, k: nat) returns (fused: seq<(Id, real)>)
    ensures fused == Fused(rankingSem, rankingBm25, k)
  {
    // The dictionary: its keys in insertion order, and its values.
    var order: seq<Id> := [];
    var scores: map<Id, real> := map[];
    order, scores := AddRanking(order, scores, [], rankingSem, k);
    assert [] + rankingSem == rankingSem;
    ValueStateNextPass(scores, rankingSem, k);
    order, scores := AddRanking(order, scores, rankingSem, rankingBm25, k);
    DictItemsAreFusedItems(order, scores, rankingSem, rankingBm25, k);
    fused := SortDesc(DictItems(order, scores));
  }

  /** One pass of `fusionar_rrf` over `ranking`, after `base` was read: the
      id at position `pos` adds 1/(k + pos + 1) to its entry, created at the
      end of the dictionary when new. */
  method AddRanking(order0: seq<Id>, scores0: map<Id, real>, base: seq<Id>, ranking: seq<Id>, k: nat)
    returns (order: seq<Id>, scores: map<Id, real>)
    requires KeyState(order0, scores0, base)
    requires ValueState(scores0, base, [], k)
    ensures KeyState(order, scores, base + ranking)
    ensures ValueState(scores, base, ranking, k)
  {
    order, scores := order0, scores0;
    // The ids of `ranking` read so far.
    ghost var cur: seq<Id> := [];
    assert base + cur == base;
    var pos := 0;
    while pos < |ranking|
      invariant 0 <= pos <= |ranking|
      invariant cur == ranking[..pos]
      invariant KeyState(order, scores, base + cur)
      invariant ValueState(scores, base, cur, k)
    {
      var id := ranking[pos];
      var prev := if id in scores then scores[id] else 0.0;
      ghost var seen := base + cur;
      KeyStep(order, scores, seen, id, prev + Term(k, pos));
      DedupMember(seen, id);
      assert id !in seen ==> id !in base && id !in cur;
      assert |cur| == pos;
      ValueStep(scores, base, cur, k, id, Term(k, pos));
      PrefixStep(base, ranking, pos);
      if id !in scores {
        order := order + [id];
      }
      scores := scores[id := prev + Term(k, pos)];
      cur := cur + [id];
      pos := pos + 1;
    }
    assert cur == ranking;
  }

  /** The keys of the score dictionary after reading `seen`, in insertion
      order. */
  ghost predicate KeyState(order: seq<Id>, scores: map<Id, real>, seen: seq<Id>)
  {
    order == Dedup(seen) && forall x :: x in scores <==> x in order
  }

  /** The values of the score dictionary: for each key, the contributions
      of the fully read ranking `base` and of the part `cur` read so far. */
  ghost predicate ValueState(scores: map<Id, real>, base: seq<Id>, cur: seq<Id>, k: nat)
  {
    forall x :: x in scores ==> scores[x] == Contribution(base, k, x) + Contribution(cur, k, x)
  }

  /** `scores.items()`: the entries in key insertion order. */
  function DictItems(order: seq<Id>, scores: map<Id, real>): (r: seq<(Id, real)>)
    requires forall i :: 0 <= i < |order| ==> order[i] in scores
  {
    seq(|order|, i requires 0 <= i < |order| => (order[i], scores[order[i]]))
  }

  lemma DictItemsAreFusedItems(order: seq<Id>, scores: map<Id, real>, sem: seq<Id>, bm: seq<Id>, k: nat)
    requires KeyState(order, scores, sem + bm) && ValueState(scores, sem, bm, k)
    ensures forall i :: 0 <= i < |order| ==> order[i] in scores
    ensures DictItems(order, scores) == FusedItems(sem, bm, k)
  {
    var a := DictItems(order, scores);
    var b := FusedItems(sem, bm, k);
    assert Keys(b) == order;
    assert |a| == |b|;
    forall i | 0 <= i < |a| ensures a[i] == b[i] {
      assert b[i].0 == order[i];
    }
  }

  lemma PrefixStep(a: seq<Id>, b: seq<Id>, n: nat)
    requires n < |b|
    ensures b[..n] + [b[n]] == b[..n + 1]
    ensures a + b[..n] + [b[n]] == a + b[..n + 1]
  {
    assert b[..n + 1] == b[..n] + [b[n]];
  }

  /** Inserting a key that is new appends it to the insertion order. */
  lemma KeyStep(order: seq<Id>, scores: map<Id, real>, seen: seq<Id>, id: Id, v: real)
    requires KeyState(order, scores, seen)
    ensures KeyState(if id in scores then order else order + [id], scores[id := v], seen + [id])
  {
    var next := seen + [id];
    assert next[..|next| - 1] == seen;
  }

  /** One update `scores[id] = scores.get(id, 0) + 1/(k + pos + 1)` while
      reading position pos = |cur| of the current ranking. */
  lemma ValueStep(scores: map<Id, real>, base: seq<Id>, cur: seq<Id>, k: nat, id: Id, w: real)
    requires ValueState(scores, base, cur, k)
    requires id !in scores ==> id !in base && id !in cur
    requires w == Term(k, |cur|)
    ensures var prev := if id in scores then scores[id] else 0.0;
      ValueState(scores[id := prev + w], base, cur + [id], k)
  {
    var nc := cur + [id];
    assert nc[..|nc| - 1] == cur;
    if id !in scores {
      ContributionAbsent(base, k, id);
      ContributionAbsent(cur, k, id);
    }
    forall x | x != id ensures Contribution(nc, k, x) == Contribution(cur, k, x) {
    }
  }

  /** After the first pass its ranking becomes the fully read `base`. */
  lemma ValueStateNextPass(scores: map<Id, real>, l: seq<Id>, k: nat)
    requires ValueState(scores, [], l, k)
    ensures ValueState(scores, l, [], k)
  {
  }

  /** The fused ranking holds every id of either ranking exactly once and
      nothing else, each with its RRF score, by non-increasing score. */
  lemma FusedIsRrfRanking(sem: seq<Id>, bm: seq<Id>, k: nat)
    ensures var r := Fused(sem, bm, k);
      && Distinct(Keys(r))
      && (forall x :: x in Keys(r) <==> x in sem || x in bm)
      && (forall i :: 0 <= i < |r| ==> r[i].1 == RrfScore(sem, bm, k, r[i].0))
      && SortedDesc(r)
  {
    var r := Fused(sem, bm, k);
    SortDescKeysDistinct(FusedItems(sem, bm, k));
    forall i | 0 <= i < |r| ensures r[i].1 == RrfScore(sem, bm, k, r[i].0) && r[i].0 in sem + bm {
      FusedEntry(sem, bm, k, i);
    }
    forall x | x in sem || x in bm ensures x in Keys(r) {
      FusedCovers(sem, bm, k, x);
    }
  }

  /** Each fused entry is an id of either ranking with its RRF score. */
  lemma FusedEntry(sem: seq<Id>, bm: seq<Id>, k: nat, i: nat)
    requires i < |Fused(sem, bm, k)|
    ensures var e := Fused(sem, bm, k)[i]; e.1 == RrfScore(sem, bm, k, e.0) && e.0 in sem + bm
  {
    SortDescMember(FusedItems(sem, bm, k), i);
  }

  /** Every id of either ranking is in the fused ranking. */
  lemma FusedCovers(sem: seq<Id>, bm: seq<Id>, k: nat, x: Id)
    requires x in sem || x in bm
    ensures x in Keys(Fused(sem, bm, k))
  {
    var items := FusedItems(sem, bm, k);
    var r := SortDesc(items);
    assert x in sem + bm;
    var d := Dedup(sem + bm);
    var j :| 0 <= j < |d| && d[j] == x;
    assert items[j].0 == x;
    SortDescCovers(items, j);
    var q :| 0 <= q < |r| && r[q] == items[j];
    assert Keys(r)[q] == x;
  }

  /** With one ranking empty and the other free of repetitions, fusion keeps
      that ranking's order. */
  lemma OneListEmpty(l: seq<Id>, k: nat)
    requires Distinct(l)
    ensures Keys(Fused(l, [], k)) == l
    ensures Keys(Fused([], l, k)) == l
  {
    OneListItems(l, [], k, l);
    SortDescOfSorted(FusedItems(l, [], k));
    OneListItems([], l, k, l);
    SortDescOfSorted(FusedItems([], l, k));
  }

  lemma OneListItems(sem: seq<Id>, bm: seq<Id>, k: nat, l: seq<Id>)
    requires Distinct(l) && ((sem == l && bm == []) || (sem == [] && bm == l))
    ensures Keys(FusedItems(sem, bm, k)) == l
    ensures SortedDesc(FusedItems(sem, bm, k))
  {
    assert sem + bm == l;
    DedupOfDistinct(l);
    var a := FusedItems(sem, bm, k);
    assert Keys(a) == l;
    forall p | 0 <= p < |a| ensures a[p].1 == Term(k, p) {
      assert a[p].0 == l[p];
      ContributionSingle(l, k, l[p], p);
      assert Contribution([], k, l[p]) == 0.0;
      assert RrfScore(sem, bm, k, l[p]) == Contribution(l, k, l[p]);
    }
    forall i, j | 0 <= i < j < |a| ensures a[i].1 >= a[j].1 {
      TermAntitone(k, i, j);
    }
  }

  /** Later positions never get a larger share. */
  lemma TermAntitone(k: nat, i: nat, j: nat)
    requires i <= j
    ensures Term(k, i) >= Term(k, j)
  {
    var a := (k + i + 1) as real;
    var b := (k + j + 1) as real;
    var x := Term(k, i);
    var y := Term(k, j);
    assert x * a == 1.0 && y * b == 1.0;
    assert y * a <= y * b by {
      assert y * (b - a) >= 0.0;
    }
    assert (x - y) * a >= 0.0;
  }

  /** Ties keep insertion order: among ids with the same fused score, the
      fused ranking follows the dictionary, whose keys are in order of first
      appearance in the semantic ranking followed by the BM25 ranking. */
  lemma FusedTiesKeepFirstSeenOrder(sem: seq<Id>, bm: seq<Id>, k: nat, v: real)
    ensures WithScore(Fused(sem, bm, k), v) == WithScore(FusedItems(sem, bm, k), v)
    ensures var d := Keys(FusedItems(sem, bm, k));
      forall i, j :: 0 <= i < j < |d| ==> FirstIndex(sem + bm, d[i]) < FirstIndex(sem + bm, d[j])
  {
    SortDescStable(FusedItems(sem, bm, k), v);
    forall i, j | 0 <= i < j < |Dedup(sem + bm)|
      ensures FirstIndex(sem + bm, Dedup(sem + bm)[i]) < FirstIndex(sem + bm, Dedup(sem + bm)[j]) {
      DedupFirstOccurrenceOrder(sem + bm, i, j);
    }
  }

  // ---------------------------------------------------------------------------
  // BM25 candidate selection (obtener_ranking_bm25)
  // ---------------------------------------------------------------------------

  /** Each score paired with its corpus index. */
  function Indexed(scores: seq<real>): (r: seq<(nat, real)>)
    ensures |r| == |scores| && forall i :: 0 <= i < |r| ==> r[i] == (i, scores[i])
  {
    seq(|scores|, i requires 0 <= i < |scores| => (i as nat, scores[i]))
  }

  ghost predicate IndexedEntry(scores: seq<real>, e: (nat, real))
  {
    e.0 < |scores| && e.1 == scores[e.0]
  }

  /** `np.argsort(-scores)[:top_n]`: corpus indices by descending score.
      Among equal scores numpy's order is unspecified; the stable order
      chosen here is one of the orders it may produce. */
  function TopIndices(scores: seq<real>, topN: int): seq<nat>
  {
    Keys(SliceTo(SortDesc(Indexed(scores)), topN))
  }

  /** Every sorted entry pairs a corpus index with its score. */
  lemma SortedEntries(scores: seq<real>, q: nat)
    requires q < |scores|
    ensures IndexedEntry(scores, SortDesc(Indexed(scores))[q])
  {
    var ix := Indexed(scores);
    SortDescMember(ix, q);
    var a :| 0 <= a < |ix| && ix[a] == SortDesc(ix)[q];
  }

  /** The selected indices are the first keys of the sorted entries. */
  lemma TopIndicesPrefix(scores: seq<real>, topN: int, t: nat)
    requires t < |TopIndices(scores, topN)|
    ensures |TopIndices(scores, topN)| <= |scores|
    ensures TopIndices(scores, topN)[t] == SortDesc(Indexed(scores))[t].0
    ensures IndexedEntry(scores, SortDesc(Indexed(scores))[t])
  {
    SortedEntries(scores, t);
  }

  /** The selected indices are distinct. */
  lemma TopIndicesDistinct(scores: seq<real>, topN: int)
    ensures Distinct(TopIndices(scores, topN))
  {
    var ix := Indexed(scores);
    var r := SortDesc(ix);
    var top := SliceTo(r, topN);
    assert Keys(ix) == seq(|scores|, i requires 0 <= i < |scores| => i as nat);
    SortDescKeysDistinct(ix);
    assert Keys(top) == Keys(r)[..|top|];
  }

  /** No index left out scores more than a selected one. */
  lemma TopIndicesBest(scores: seq<real>, topN: int, t: nat, m: nat)
    requires t < |TopIndices(scores, topN)| && m < |scores| && m !in TopIndices(scores, topN)
    ensures TopIndices(scores, topN)[t] < |scores|
    ensures scores[TopIndices(scores, topN)[t]] >= scores[m]
  {
    var ix := Indexed(scores);
    var r := SortDesc(ix);
    var top := SliceTo(r, topN);
    var sel := Keys(top);
    TopIndicesPrefix(scores, topN, t);
    SortDescCovers(ix, m);
    var q :| 0 <= q < |r| && r[q] == ix[m];
    assert forall u :: 0 <= u < |top| ==> r[u].0 == sel[u] != m;
    assert q >= |top|;
  }

  /** The selection holds as many distinct corpus indices as the slice
      allows, by non-increasing score, and no index left out scores more
      than one selected. */
  lemma TopIndicesSelect(scores: seq<real>, topN: int)
    ensures var sel := TopIndices(scores, topN);
      && |sel| == (if topN >= 0 then Min(topN, |scores|) else Max(0, |scores| + topN))
      && Distinct(sel)
      && (forall t :: 0 <= t < |sel| ==> sel[t] < |scores|)
      && (forall t, u :: 0 <= t < u < |sel| ==> scores[sel[t]] >= scores[sel[u]])
      && (forall t, m :: 0 <= t < |sel| && 0 <= m < |scores| && m !in sel ==> scores[sel[t]] >= scores[m])
  {
    var sel := TopIndices(scores, topN);
    TopIndicesDistinct(scores, topN);
    forall t | 0 <= t < |sel| ensures sel[t] < |scores| {
      TopIndicesPrefix(scores, topN, t);
    }
    forall t, u | 0 <= t < u < |sel| ensures scores[sel[t]] >= scores[sel[u]] {
      TopIndicesPrefix(scores, topN, t);
      TopIndicesPrefix(scores, topN, u);
    }
    forall t, m | 0 <= t < |sel| && 0 <= m < |scores| && m !in sel
      ensures scores[sel[t]] >= scores[m] {
      TopIndicesBest(scores, topN, t, m);
    }
  }

  /** The tokens BM25 sees for each corpus document. */
  function TokenizeCorpus(docs: seq<string>): (r: seq<seq<string>>)
    ensures |r| == |docs| && forall i :: 0 <= i < |docs| ==> r[i] == Tokens(docs[i])
  {
    seq(|docs|, i requires 0 <= i < |docs| => Tokens(docs[i]))
  }

  /** Whether `BM25Okapi(tokenized_corpus)` can be built. The `rank_bm25`
      constructor divides the total token count by the number of documents
      (the average document length) and the summed idf by the vocabulary
      size (the average idf), so a corpus without a single token raises
      ZeroDivisionError; an empty corpus is one such. */
  predicate Bm25Builds(corpus: seq<seq<string>>)
  {
    exists i :: 0 <= i < |corpus| && |corpus[i]| > 0
  }

  /** A corpus BM25 can be built on has documents. */
  lemma Bm25BuildsNonEmpty(docs: seq<string>)
    requires Bm25Builds(TokenizeCorpus(docs))
    ensures |docs| > 0
  {
    var i :| 0 <= i < |TokenizeCorpus(docs)| && |TokenizeCorpus(docs)[i]| > 0;
  }

  /** BM25 scorer: given the tokenised corpus and the query tokens, one
      score per corpus document. */
  type Bm25Scorer = (seq<seq<string>>, seq<string>) -> seq<real>

  /** The BM25 scores of the corpus for `query`. */
  function Bm25Scores(query: string, allDocs: seq<string>, bm25: Bm25Scorer): seq<real>
  {
    bm25(TokenizeCorpus(allDocs), Tokens(query))
  }

  /** `obtener_ranking_bm25`: the ids of the `topN` best-scoring documents,
      given the scores BM25 computed for the corpus. */
  function Bm25Ranking(allIds: seq<Id>, scores: seq<real>, topN: int): (r: seq<Id>)
    requires |scores| == |allIds|
  {
    var sel := TopIndices(scores, topN);
    TopIndicesSelect(scores, topN);
    seq(|sel|, t requires 0 <= t < |sel| => allIds[sel[t]])
  }

  /** The BM25 ranking returns min(topN, |allIds|) ids of the corpus,
      distinct when the corpus ids are, in the order of the selected
      indices. */
  lemma Bm25RankingSelects(allIds: seq<Id>, scores: seq<real>, topN: int)
    requires |scores| == |allIds|
    ensures var r := Bm25Ranking(allIds, scores, topN);
      && (topN >= 0 ==> |r| == Min(topN, |allIds|))
      && (forall t :: 0 <= t < |r| ==> r[t] in allIds)
      && (Distinct(allIds) ==> Distinct(r))
  {
    TopIndicesSelect(scores, topN);
  }

  // ---------------------------------------------------------------------------
  // Hybrid search (buscar_texto_hibrido)
  // ---------------------------------------------------------------------------

  /** The whole text collection as `get` returns it: aligned lists. */
  datatype Collection = Collection(ids: seq<Id>, documents: seq<string>, metadatas: seq<Option<Metadata>>)

  /** Results in the vector store's query shape: one inner list per query. */
  datatype QueryResult = QueryResult(ids: seq<seq<Id>>, documents: seq<seq<string>>,
                                     metadatas: seq<seq<Option<Metadata>>>)

  /** Dense retriever: the ids of the nearest stored chunks for the embedded
      text (embedding and the ten-result vector query). */
  type DenseSearch = string -> seq<Id>

  const RrfK: nat := 60
  const Bm25TopN: int := 10

  /** `{doc_id: i for i, doc_id in enumerate(ids)}`: a repeated id keeps its
      last index. */
  function IdToIndex(ids: seq<Id>): (m: map<Id, nat>)
    ensures forall x :: x in m <==> x in ids
    ensures forall x :: x in m ==> m[x] < |ids| && ids[m[x]] == x
    ensures forall x, j :: x in m && m[x] < j < |ids| ==> ids[j] != x
  {
    if |ids| == 0 then map[]
    else
      var init := ids[..|ids| - 1];
      var m := IdToIndex(init);
      assert forall j :: 0 <= j < |init| ==> init[j] == ids[j];
      m[ids[|ids| - 1] := |ids| - 1]
  }

  /** The fused ids that survive the `[:top_k]` cut. */
  function TopFused(sem: seq<Id>, bm: seq<Id>, topK: int): seq<Id>
  {
    Keys(SliceTo(Fused(sem, bm, RrfK), topK))
  }

  /** `res` lists `top` with each id's document and metadata taken from the
      collection index the id map gives for it. */
  ghost predicate Hydrated(col: Collection, top: seq<Id>, res: QueryResult)
    requires |col.ids| == |col.documents| == |col.metadatas|
  {
    var idx := IdToIndex(col.ids);
    && |res.ids| == 1 && |res.documents| == 1 && |res.metadatas| == 1
    && res.ids[0] == top
    && |res.documents[0]| == |top| && |res.metadatas[0]| == |top|
    && forall t :: 0 <= t < |top| ==>
         && top[t] in idx
         && res.documents[0][t] == col.documents[idx[top[t]]]
         && res.metadatas[0][t] == col.metadatas[idx[top[t]]]
  }

  /** Every id of `ids` is a collection id. */
  ghost predicate AllInCollection(col: Collection, ids: seq<Id>)
  {
    forall t :: 0 <= t < |ids| ==> ids[t] in col.ids
  }

  /** The ids `buscar_texto_hibrido` hydrates: the dense ranking of
      "query: " + query and the BM25 ranking of the collection, fused and
      cut to `topK`. */
  function HybridTop(query: string, col: Collection, dense: DenseSearch, bm25: Bm25Scorer, topK: int): seq<Id>
    requires |col.ids| == |col.documents|
    requires |Bm25Scores(query, col.documents, bm25)| == |col.documents|
  {
    var bm := Bm25Ranking(col.ids, Bm25Scores(query, col.documents, bm25), Bm25TopN);
    TopFused(dense("query: " + query), bm, topK)
  }

  /** At most `topK` ids survive the cut, and they all belong to the
      collection when the dense ranking only holds collection ids. */
  lemma HybridTopBounds(query: string, col: Collection, dense: DenseSearch, bm25: Bm25Scorer, topK: int)
    requires |col.ids| == |col.documents|
    requires |Bm25Scores(query, col.documents, bm25)| == |col.documents|
    ensures topK >= 0 ==> |HybridTop(query, col, dense, bm25, topK)| <= topK
    ensures AllInCollection(col, dense("query: " + query)) ==>
      AllInCollection(col, HybridTop(query, col, dense, bm25, topK))
  {
    var sem := dense("query: " + query);
    var scores := Bm25Scores(query, col.documents, bm25);
    var bm := Bm25Ranking(col.ids, scores, Bm25TopN);
    var top := TopFused(sem, bm, topK);
    assert HybridTop(query, col, dense, bm25, topK) == top;
    TopFusedDistinct(sem, bm, topK);
    if AllInCollection(col, sem) {
      Bm25RankingSelects(col.ids, scores, Bm25TopN);
      TopFusedFromRankings(sem, bm, topK);
      forall t | 0 <= t < |top| ensures top[t] in col.ids {
        if top[t] in sem {
          var u :| 0 <= u < |sem| && sem[u] == top[t];
        }
      }
    }
  }

  /** `buscar_texto_hibrido`. An empty collection yields empty lists before
      any search. Otherwise a collection without a single token stops the
      search when BM25 is built (the ZeroDivisionError); else the dense and
      BM25 rankings are fused, cut to `topK`, and each id is hydrated from
      the collection; an id the collection does not hold stops the search
      (the KeyError). */
  method HybridTextSearch(query: string, col: Collection, dense: DenseSearch, bm25: Bm25Scorer, topK: int)
    returns (res: Option<QueryResult>)
    requires |col.ids| == |col.documents| == |col.metadatas|
    requires |Bm25Scores(query, col.documents, bm25)| == |col.documents|
    ensures col.ids == [] ==> res == Some(QueryResult([], [], []))
    ensures col.ids != [] ==>
      (res.Some? <==> Bm25Builds(TokenizeCorpus(col.documents))
                      && AllInCollection(col, HybridTop(query, col, dense, bm25, topK)))
    ensures col.ids != [] && res.Some? ==>
      Hydrated(col, HybridTop(query, col, dense, bm25, topK), res.value)
  {
    if col.ids == [] {
      return Some(QueryResult([], [], []));
    }
    var rankingSem := dense("query: " + query);
    if !Bm25Builds(TokenizeCorpus(col.documents)) {
      return None;
    }
    var scores := Bm25Scores(query, col.documents, bm25);
    var rankingBm25 := Bm25Ranking(col.ids, scores, Bm25TopN);
    var fusedAll := FuseRrf(rankingSem, rankingBm25, RrfK);
    var fused := SliceTo(fusedAll, topK);
    assert Keys(fused) == HybridTop(query, col, dense, bm25, topK);
    res := Hydrate(col, fused);
  }

  /** The hydration loop of `buscar_texto_hibrido`: ids, documents and
      metadata of the fused entries, looked up through the id map. */
  method Hydrate(col: Collection, fused: seq<(Id, real)>) returns (res: Option<QueryResult>)
    requires |col.ids| == |col.documents| == |col.metadatas|
    ensures res.Some? <==> AllInCollection(col, Keys(fused))
    ensures res.Some? ==> Hydrated(col, Keys(fused), res.value)
  {
    var idToIdx := IdToIndex(col.ids);
    ghost var ks := Keys(fused);
    var idsFinal: seq<Id> := [];
    var docsFinal: seq<string> := [];
    var metasFinal: seq<Option<Metadata>> := [];
    var t := 0;
    while t < |fused|
      invariant t == |idsFinal| <= |fused|
      invariant Pairs(col, idToIdx, ks, idsFinal, docsFinal, metasFinal)
    {
      var docId := fused[t].0;
      if docId !in idToIdx {
        MissingId(col, ks, t);
        return None;
      }
      var idx := idToIdx[docId];
      PairsStep(col, idToIdx, ks, idsFinal, docsFinal, metasFinal);
      idsFinal := idsFinal + [docId];
      docsFinal := docsFinal + [col.documents[idx]];
      metasFinal := metasFinal + [col.metadatas[idx]];
      t := t + 1;
    }
    HydratedIntro(col, ks, idsFinal, docsFinal, metasFinal);
    res := Some(QueryResult([idsFinal], [docsFinal], [metasFinal]));
  }

  /** The first |ids| fused ids `ks`, each paired with the document and the
      metadata at the index `idx` gives it. */
  ghost predicate Pairs(col: Collection, idx: map<Id, nat>, ks: seq<Id>,
                        ids: seq<Id>, docs: seq<string>, metas: seq<Option<Metadata>>)
  {
    && |ids| == |docs| == |metas| <= |ks|
    && forall u :: 0 <= u < |ids| ==>
         && ids[u] == ks[u] && ks[u] in idx
         && idx[ks[u]] < |col.documents| && idx[ks[u]] < |col.metadatas|
         && docs[u] == col.documents[idx[ks[u]]]
         && metas[u] == col.metadatas[idx[ks[u]]]
  }

  /** One more fused id found in the id map extends the pairing. */
  lemma PairsStep(col: Collection, idx: map<Id, nat>, ks: seq<Id>,
                  ids: seq<Id>, docs: seq<string>, metas: seq<Option<Metadata>>)
    requires Pairs(col, idx, ks, ids, docs, metas)
    requires |ids| < |ks| && ks[|ids|] in idx
    requires idx[ks[|ids|]] < |col.documents| && idx[ks[|ids|]] < |col.metadatas|
    ensures var i := idx[ks[|ids|]];
      Pairs(col, idx, ks, ids + [ks[|ids|]], docs + [col.documents[i]], metas + [col.metadatas[i]])
  {
  }

  /** An id missing from the collection makes hydration fail. */
  lemma MissingId(col: Collection, ks: seq<Id>, t: nat)
    requires t < |ks| && ks[t] !in IdToIndex(col.ids)
    ensures !AllInCollection(col, ks)
  {
  }

  /** A pairing of every fused id through the collection's id map is the
      hydrated result, and every id is then in the collection. */
  lemma HydratedIntro(col: Collection, ks: seq<Id>,
                      ids: seq<Id>, docs: seq<string>, metas: seq<Option<Metadata>>)
    requires |col.ids| == |col.documents| == |col.metadatas|
    requires Pairs(col, IdToIndex(col.ids), ks, ids, docs, metas) && |ids| == |ks|
    ensures AllInCollection(col, ks)
    ensures Hydrated(col, ks, QueryResult([ids], [docs], [metas]))
  {
    assert ids == ks;
  }

  /** Every fused id that survives the cut comes from one of the two
      rankings. */
  lemma TopFusedFromRankings(sem: seq<Id>, bm: seq<Id>, topK: int)
    ensures var top := TopFused(sem, bm, topK);
      forall t :: 0 <= t < |top| ==> top[t] in sem || top[t] in bm
  {
    FusedIsRrfRanking(sem, bm, RrfK);
    var r := Fused(sem, bm, RrfK);
    var top := TopFused(sem, bm, topK);
    assert forall t :: 0 <= t < |top| ==> top[t] == Keys(r)[t];
  }

  /** The ids that survive the cut are distinct, and there are at most
      `topK` of them for a non-negative `topK`. */
  lemma TopFusedDistinct(sem: seq<Id>, bm: seq<Id>, topK: int)
    ensures Distinct(TopFused(sem, bm, topK))
    ensures topK >= 0 ==> |TopFused(sem, bm, topK)| <= topK
  {
    FusedIsRrfRanking(sem, bm, RrfK);
    var keys := Keys(Fused(sem, bm, RrfK));
    var top := TopFused(sem, bm, topK);
    assert forall t :: 0 <= t < |top| ==> top[t] == keys[t];
  }
}
