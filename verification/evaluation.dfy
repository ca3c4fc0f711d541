/** Retrieval evaluation over a golden set: hit rate and mean reciprocal
    rank of the first target id among the retrieved ids
    (`evaluar_retrieval` in `src/02_evaluar_chunks.py`). */
module Evaluation {
  import opened Common
  import opened Metrics

  /** One golden-set entry: a question and the ids that answer it. */
  datatype GoldenItem = GoldenItem(query: string, relevantIds: seq<string>)

  /** The dense retriever: embedding of the formatted question and a vector
      query for `n` results, as the list of retrieved ids. */
  type Retriever = (string, int) -> seq<string>

  /** The ids retrieved for one item. */
  function Retrieved(item: GoldenItem, retrieve: Retriever, topK: int): seq<string>
  {
    retrieve("query: " + item.query, topK)
  }

  /** `any(tid in recuperados for tid in target_ids)`. */
  predicate IsHit(targets: seq<string>, retrieved: seq<string>)
  {
    exists i :: 0 <= i < |targets| && targets[i] in retrieved
  }

  /** What one item adds to the MRR sum: 1/(r + 1) for the first rank r
      holding a target id, nothing for a miss. */
  function ItemRR(targets: seq<string>, retrieved: seq<string>): real
  {
    match FirstHit(retrieved, Elems(targets))
    case None => 0.0
    case Some(r) => 1.0 / ((r + 1) as real)
  }

  function Hits(items: seq<GoldenItem>, retrieve: Retriever, topK: int): nat
  {
    if |items| == 0 then 0
    else
      var last := items[|items| - 1];
      Hits(items[..|items| - 1], retrieve, topK)
      + (if IsHit(last.relevantIds, Retrieved(last, retrieve, topK)) then 1 else 0)
  }

  function RRSum(items: seq<GoldenItem>, retrieve: Retriever, topK: int): real
  {
    if |items| == 0 then 0.0
    else
      var last := items[|items| - 1];
      RRSum(items[..|items| - 1], retrieve, topK) + ItemRR(last.relevantIds, Retrieved(last, retrieve, topK))
  }

  /** Hits over items; 0 for an empty golden set. */
  function HitRate(items: seq<GoldenItem>, retrieve: Retriever, topK: int): real
  {
    if |items| > 0 then Hits(items, retrieve, topK) as real / |items| as real else 0.0
  }

  /** Mean reciprocal rank; 0 for an empty golden set. */
  function Mrr(items: seq<GoldenItem>, retrieve: Retriever, topK: int): real
  {
    if |items| > 0 then RRSum(items, retrieve, topK) / |items| as real else 0.0
  }

  /** An item is a hit exactly when its first target rank exists, and a
      hit adds 1/(r + 1) for the smallest rank r holding a target. */
  lemma HitIffFirstRank(targets: seq<string>, retrieved: seq<string>)
    ensures IsHit(targets, retrieved) <==> FirstHit(retrieved, Elems(targets)).Some?
    ensures IsHit(targets, retrieved) ==>
      var r := FirstHit(retrieved, Elems(targets)).value;
      && retrieved[r] in targets
      && (forall j :: 0 <= j < r ==> retrieved[j] !in targets)
      && ItemRR(targets, retrieved) == 1.0 / ((r + 1) as real)
    ensures !IsHit(targets, retrieved) ==> ItemRR(targets, retrieved) == 0.0
  {
    var h := FirstHit(retrieved, Elems(targets));
    if IsHit(targets, retrieved) {
      var i :| 0 <= i < |targets| && targets[i] in retrieved;
      var j :| 0 <= j < |retrieved| && retrieved[j] == targets[i];
      assert retrieved[j] in Elems(targets);
    }
    if h.Some? {
      assert retrieved[h.value] in targets;
    }
  }

  /** `evaluar_retrieval`. */
  method EvaluateRetrieval(goldenSet: seq<GoldenItem>, retrieve: Retriever, topK: int)
    returns (hitRate: real, mrr: real)
    ensures hitRate == HitRate(goldenSet, retrieve, topK)
    ensures mrr == Mrr(goldenSet, retrieve, topK)
  {
    var aciertos := 0;
    var mrrSum := 0.0;
    for i := 0 to |goldenSet|
      invariant aciertos == Hits(goldenSet[..i], retrieve, topK)
      invariant mrrSum == RRSum(goldenSet[..i], retrieve, topK)
    {
      var item := goldenSet[i];
      var targetIds := item.relevantIds;
      var queryFormateada := "query: " + item.query;
      var recuperadosIds := retrieve(queryFormateada, topK);
      assert goldenSet[..i + 1][..i] == goldenSet[..i];
      assert recuperadosIds == Retrieved(item, retrieve, topK);
      HitIffFirstRank(targetIds, recuperadosIds);
      var acierto := exists t :: 0 <= t < |targetIds| && targetIds[t] in recuperadosIds;
      if acierto {
        aciertos := aciertos + 1;
        var rr := ItemReciprocalRank(targetIds, recuperadosIds);
        mrrSum := mrrSum + rr;
      }
    }
    assert goldenSet[..|goldenSet|] == goldenSet;
    var total := |goldenSet|;
    hitRate := if total > 0 then aciertos as real / total as real else 0.0;
    mrr := if total > 0 then mrrSum / total as real else 0.0;
  }

  /** The inner loop of `evaluar_retrieval`: the first rank holding a target
      id gives 1/(rank + 1). */
  method ItemReciprocalRank(targetIds: seq<string>, recuperadosIds: seq<string>) returns (rr: real)
    requires IsHit(targetIds, recuperadosIds)
    ensures rr == ItemRR(targetIds, recuperadosIds) && rr > 0.0
  {
    HitIffFirstRank(targetIds, recuperadosIds);
    var rank := 0;
    while rank < |recuperadosIds|
      invariant 0 <= rank <= |recuperadosIds|
      invariant forall j :: 0 <= j < rank ==> recuperadosIds[j] !in targetIds
    {
      if recuperadosIds[rank] in targetIds {
        FirstHitUnique(recuperadosIds, Elems(targetIds), rank);
        return 1.0 / ((rank + 1) as real);
      }
      rank := rank + 1;
    }
    assert false;
  }

  lemma ItemRRBounds(targets: seq<string>, retrieved: seq<string>)
    ensures 0.0 <= ItemRR(targets, retrieved) <= (if IsHit(targets, retrieved) then 1.0 else 0.0)
  {
    HitIffFirstRank(targets, retrieved);
    if IsHit(targets, retrieved) {
      var r := FirstHit(retrieved, Elems(targets)).value;
      var p := (r + 1) as real;
      assert 1.0 / p * p == 1.0;
    }
  }

  lemma {:induction false} SumBounds(items: seq<GoldenItem>, retrieve: Retriever, topK: int)
    ensures 0.0 <= RRSum(items, retrieve, topK) <= Hits(items, retrieve, topK) as real
    ensures Hits(items, retrieve, topK) <= |items|
  {
    if |items| > 0 {
      var last := items[|items| - 1];
      SumBounds(items[..|items| - 1], retrieve, topK);
      ItemRRBounds(last.relevantIds, Retrieved(last, retrieve, topK));
    }
  }

  /** `0 <= mrr <= hit_rate <= 1`, and both are 0 for an empty golden set. */
  lemma EvaluationBounds(items: seq<GoldenItem>, retrieve: Retriever, topK: int)
    ensures 0.0 <= Mrr(items, retrieve, topK) <= HitRate(items, retrieve, topK) <= 1.0
    ensures items == [] ==> HitRate(items, retrieve, topK) == 0.0 && Mrr(items, retrieve, topK) == 0.0
  {
    SumBounds(items, retrieve, topK);
    if |items| > 0 {
      RatioBounds(RRSum(items, retrieve, topK), Hits(items, retrieve, topK) as real, |items| as real);
    }
  }
}
