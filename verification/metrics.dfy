/** Retrieval metrics over ranked id lists and sets of relevant ids:
    Precision@K, Recall@K, Reciprocal Rank, Average Precision and MAP
    (`src/utils/utils.py`). Ratios are exact. */
module Metrics {
  import opened Common

  // ---------------------------------------------------------------------------
  // Counting
  // ---------------------------------------------------------------------------

  /** How many positions of `s` hold a relevant id. */
  function Count(s: seq<string>, relevantes: set<string>): nat
  {
    if |s| == 0 then 0
    else Count(s[..|s| - 1], relevantes) + (if s[|s| - 1] in relevantes then 1 else 0)
  }

  lemma CountSnoc(s: seq<string>, n: nat, relevantes: set<string>)
    requires n < |s|
    ensures Count(s[..n + 1], relevantes) == Count(s[..n], relevantes) + (if s[n] in relevantes then 1 else 0)
  {
    assert s[..n + 1][..n] == s[..n];
  }

  /** At most every position counts, and every position counts exactly when
      every id is relevant. */
  lemma {:induction false} CountBounds(s: seq<string>, relevantes: set<string>)
    ensures Count(s, relevantes) <= |s|
    ensures Count(s, relevantes) == |s| <==> forall i :: 0 <= i < |s| ==> s[i] in relevantes
  {
    if |s| > 0 {
      var init := s[..|s| - 1];
      CountBounds(init, relevantes);
      assert forall i :: 0 <= i < |init| ==> init[i] == s[i];
    }
  }

  /** The distinct ids of `s`. */
  function Elems(s: seq<string>): set<string>
  {
    set x | x in s
  }

  /** Without repetitions, the count is the number of relevant ids that
      occur, hence at most the number of relevant ids. */
  lemma {:induction false} CountDistinct(s: seq<string>, relevantes: set<string>)
    requires Distinct(s)
    ensures Count(s, relevantes) == |Elems(s) * relevantes|
    ensures Count(s, relevantes) <= |relevantes|
  {
    if |s| == 0 {
      assert Elems(s) * relevantes == {};
    } else {
      var init := s[..|s| - 1];
      var x := s[|s| - 1];
      assert Distinct(init);
      CountDistinct(init, relevantes);
      assert x !in init;
      assert Elems(s) == Elems(init) + {x};
      if x in relevantes {
        assert Elems(s) * relevantes == (Elems(init) * relevantes) + {x};
      } else {
        assert Elems(s) * relevantes == Elems(init) * relevantes;
      }
    }
    SubsetCard(Elems(s) * relevantes, relevantes);
  }

  lemma SubsetCard(a: set<string>, b: set<string>)
    requires a <= b
    ensures |a| <= |b|
  {
    assert b == a + (b - a);
  }

  // ---------------------------------------------------------------------------
  // Precision@K
  // ---------------------------------------------------------------------------

  /** Share of relevant ids among `resultados[:k]`; 0 when that is empty. */
  function Precision(resultados: seq<string>, relevantes: set<string>, k: int): real
  {
    var top := SliceTo(resultados, k);
    if |top| == 0 then 0.0 else Count(top, relevantes) as real / |top| as real
  }

  /** `precision_at_k`. */
  method PrecisionAtK(resultados: seq<string>, relevantes: set<string>, k: int) returns (precision: real)
    ensures precision == Precision(resultados, relevantes, k)
  {
    var topK := SliceTo(resultados, k);
    if |topK| == 0 {
      return 0.0;
    }
    var relevantesEncontrados := 0;
    for i := 0 to |topK|
      invariant relevantesEncontrados == Count(topK[..i], relevantes)
    {
      CountSnoc(topK, i, relevantes);
      if topK[i] in relevantes {
        relevantesEncontrados := relevantesEncontrados + 1;
      }
    }
    assert topK[..|topK|] == topK;
    var totalDocumentos := |topK|;
    precision := relevantesEncontrados as real / totalDocumentos as real;
  }

  /** Precision lies in [0, 1], and is 1 exactly when the cut list is
      non-empty and holds only relevant ids. */
  lemma PrecisionBounds(resultados: seq<string>, relevantes: set<string>, k: int)
    ensures 0.0 <= Precision(resultados, relevantes, k) <= 1.0
    ensures var top := SliceTo(resultados, k);
      Precision(resultados, relevantes, k) == 1.0 <==>
        top != [] && forall i :: 0 <= i < |top| ==> top[i] in relevantes
  {
    var top := SliceTo(resultados, k);
    CountBounds(top, relevantes);
    if |top| > 0 {
      var c := Count(top, relevantes) as real;
      var n := |top| as real;
      RatioBounds(c, c, n);
      RatioIsOne(c, n);
    }
  }

  // ---------------------------------------------------------------------------
  // Recall@K
  // ---------------------------------------------------------------------------

  /** Share of the relevant ids found in `resultados[:k]`; 0 when nothing is
      relevant. */
  function Recall(resultados: seq<string>, relevantes: set<string>, k: int): real
  {
    if relevantes == {} then 0.0
    else |relevantes * Elems(SliceTo(resultados, k))| as real / |relevantes| as real
  }

  /** `recall_at_k`: counts, over the relevant set in any iteration order,
      the ids present in the cut list. */
  method RecallAtK(resultados: seq<string>, relevantes: set<string>, k: int) returns (recall: real)
    ensures recall == Recall(resultados, relevantes, k)
  {
    if relevantes == {} {
      return 0.0;
    }
    var topK := Elems(SliceTo(resultados, k));
    var relevantesEncontrados := 0;
    var pendientes := relevantes;
    while pendientes != {}
      invariant pendientes <= relevantes
      invariant relevantesEncontrados == |(relevantes - pendientes) * topK|
      decreases |pendientes|
    {
      var documentoRelevante :| documentoRelevante in pendientes;
      RecallStep(relevantes, pendientes, topK, documentoRelevante);
      if documentoRelevante in topK {
        relevantesEncontrados := relevantesEncontrados + 1;
      }
      pendientes := pendientes - {documentoRelevante};
    }
    assert relevantes - pendientes == relevantes;
    var totalRelevantes := |relevantes|;
    recall := relevantesEncontrados as real / totalRelevantes as real;
  }

  /** Moving one pending relevant id to the seen side adds one found id
      exactly when that id is in the cut list. */
  lemma RecallStep(relevantes: set<string>, pendientes: set<string>, topK: set<string>, d: string)
    requires pendientes <= relevantes && d in pendientes
    ensures |(relevantes - (pendientes - {d})) * topK|
      == |(relevantes - pendientes) * topK| + (if d in topK then 1 else 0)
  {
    var visto := (relevantes - pendientes) * topK;
    assert d !in visto;
    if d in topK {
      assert (relevantes - (pendientes - {d})) * topK == visto + {d};
    } else {
      assert (relevantes - (pendientes - {d})) * topK == visto;
    }
  }

  /** Recall lies in [0, 1], is 1 exactly when every relevant id is found
      (for a non-empty relevant set), and never drops as `k` grows. */
  lemma RecallBounds(resultados: seq<string>, relevantes: set<string>, k: int)
    ensures 0.0 <= Recall(resultados, relevantes, k) <= 1.0
    ensures relevantes != {} ==>
      (Recall(resultados, relevantes, k) == 1.0 <==> relevantes <= Elems(SliceTo(resultados, k)))
  {
    if relevantes != {} {
      var found := relevantes * Elems(SliceTo(resultados, k));
      SubsetCard(found, relevantes);
      var c := |found| as real;
      var n := |relevantes| as real;
      RatioBounds(c, c, n);
      RatioIsOne(c, n);
      assert |found| == |relevantes| <==> found == relevantes by {
        if |found| == |relevantes| {
          assert relevantes == found + (relevantes - found);
        }
      }
    }
  }

  lemma RecallMonotone(resultados: seq<string>, relevantes: set<string>, k1: int, k2: int)
    requires 0 <= k1 <= k2
    ensures Recall(resultados, relevantes, k1) <= Recall(resultados, relevantes, k2)
  {
    if relevantes != {} {
      var a := SliceTo(resultados, k1);
      var b := SliceTo(resultados, k2);
      SliceToMonotone(resultados, k1, k2);
      assert Elems(a) <= Elems(b);
      SubsetCard(relevantes * Elems(a), relevantes * Elems(b));
      var n := |relevantes| as real;
      var ca := |relevantes * Elems(a)| as real;
      var cb := |relevantes * Elems(b)| as real;
      SubsetCard(relevantes * Elems(b), relevantes);
      RatioBounds(ca, cb, n);
    }
  }

  // ---------------------------------------------------------------------------
  // Reciprocal Rank
  // ---------------------------------------------------------------------------

  /** Index of the first relevant id, if any. */
  function FirstHit(s: seq<string>, relevantes: set<string>): (r: Option<nat>)
    ensures r.Some? ==> r.value < |s| && s[r.value] in relevantes
    ensures r.Some? ==> forall j :: 0 <= j < r.value ==> s[j] !in relevantes
    ensures r.None? ==> forall j :: 0 <= j < |s| ==> s[j] !in relevantes
  {
    if s == [] then None
    else if s[0] in relevantes then Some(0)
    else match FirstHit(s[1..], relevantes)
      case None => None
      case Some(i) => Some(i + 1)
  }

  /** 1/p for the 1-based position p of the first relevant id; 0 if none. */
  function RR(resultados: seq<string>, relevantes: set<string>): real
  {
    match FirstHit(resultados, relevantes)
    case None => 0.0
    case Some(i) => 1.0 / ((i + 1) as real)
  }

  /** `reciprocal_rank`. */
  method ReciprocalRank(resultados: seq<string>, relevantes: set<string>) returns (rr: real)
    ensures rr == RR(resultados, relevantes)
  {
    var posicion := 1;
    while posicion <= |resultados|
      invariant 1 <= posicion <= |resultados| + 1
      invariant forall j :: 0 <= j < posicion - 1 ==> resultados[j] !in relevantes
    {
      if resultados[posicion - 1] in relevantes {
        FirstHitUnique(resultados, relevantes, posicion - 1);
        return 1.0 / posicion as real;
      }
      posicion := posicion + 1;
    }
    FirstHitNone(resultados, relevantes);
    return 0.0;
  }

  lemma FirstHitUnique(s: seq<string>, relevantes: set<string>, i: nat)
    requires i < |s| && s[i] in relevantes
    requires forall j :: 0 <= j < i ==> s[j] !in relevantes
    ensures FirstHit(s, relevantes) == Some(i)
  {
    var r := FirstHit(s, relevantes);
    assert r.Some?;
    assert !(r.value < i);
    assert !(r.value > i);
  }

  lemma FirstHitNone(s: seq<string>, relevantes: set<string>)
    requires forall j :: 0 <= j < |s| ==> s[j] !in relevantes
    ensures FirstHit(s, relevantes) == None
  {
  }

  /** The reciprocal rank lies in [0, 1]; it is 1 exactly when the first id
      is relevant and positive exactly when some id is. */
  lemma RRBounds(resultados: seq<string>, relevantes: set<string>)
    ensures 0.0 <= RR(resultados, relevantes) <= 1.0
    ensures RR(resultados, relevantes) == 1.0 <==> resultados != [] && resultados[0] in relevantes
    ensures RR(resultados, relevantes) > 0.0 <==> exists j :: 0 <= j < |resultados| && resultados[j] in relevantes
  {
    match FirstHit(resultados, relevantes)
    case None =>
    case Some(i) =>
      var p := (i + 1) as real;
      assert 1.0 / p * p == 1.0;
      assert 1.0 / p == 1.0 <==> i == 0;
  }

  // ---------------------------------------------------------------------------
  // Average Precision and MAP
  // ---------------------------------------------------------------------------

  /** Sum of precision@p over the 1-based positions p that hold a relevant
      id. */
  function PrecisionSum(s: seq<string>, relevantes: set<string>): real
  {
    if |s| == 0 then 0.0
    else
      PrecisionSum(s[..|s| - 1], relevantes)
      + (if s[|s| - 1] in relevantes then Count(s, relevantes) as real / |s| as real else 0.0)
  }

  /** Average precision: the precision sum over the number of relevant ids;
      0 when nothing is relevant. */
  function AP(resultados: seq<string>, relevantes: set<string>): real
  {
    if |relevantes| == 0 then 0.0 else PrecisionSum(resultados, relevantes) / |relevantes| as real
  }

  /** `average_precision`. */
  method AveragePrecision(resultados: seq<string>, relevantes: set<string>) returns (ap: real)
    ensures ap == AP(resultados, relevantes)
  {
    if |relevantes| == 0 {
      return 0.0;
    }
    var sumaPrecisiones := 0.0;
    var relevantesEncontrados := 0;
    for i := 0 to |resultados|
      invariant relevantesEncontrados == Count(resultados[..i], relevantes)
      invariant sumaPrecisiones == PrecisionSum(resultados[..i], relevantes)
    {
      var posicion := i + 1;
      var prefix := resultados[..i + 1];
      assert prefix[..|prefix| - 1] == resultados[..i];
      CountSnoc(resultados, i, relevantes);
      if resultados[i] in relevantes {
        relevantesEncontrados := relevantesEncontrados + 1;
        var precisionEnK := relevantesEncontrados as real / posicion as real;
        sumaPrecisiones := sumaPrecisiones + precisionEnK;
      }
    }
    assert resultados[..|resultados|] == resultados;
    var totalRelevantes := |relevantes|;
    ap := sumaPrecisiones / totalRelevantes as real;
  }

  /** The precision sum is at most the number of relevant positions. */
  lemma {:induction false} PrecisionSumBounds(s: seq<string>, relevantes: set<string>)
    ensures 0.0 <= PrecisionSum(s, relevantes) <= Count(s, relevantes) as real
  {
    if |s| > 0 {
      var init := s[..|s| - 1];
      PrecisionSumBounds(init, relevantes);
      CountBounds(s, relevantes);
      var c := Count(s, relevantes) as real;
      RatioBounds(c, c, |s| as real);
    }
  }

  /** Without repeated ids in the ranking, average precision lies in
      [0, 1]. */
  lemma APBounds(resultados: seq<string>, relevantes: set<string>)
    requires Distinct(resultados)
    ensures 0.0 <= AP(resultados, relevantes) <= 1.0
  {
    if |relevantes| != 0 {
      PrecisionSumBounds(resultados, relevantes);
      CountDistinct(resultados, relevantes);
      var s := PrecisionSum(resultados, relevantes);
      var n := |relevantes| as real;
      RatioBounds(s, s, n);
    }
  }

  /** `average_precision` as written counts a repeated relevant id at each
      of its positions, so its documented range [0, 1] fails: the ranking
      ["a", "a"] against the relevant set {"a"} scores 2. */
  lemma RepeatedIdBreaksAPBound()
    ensures AP(["a", "a"], {"a"}) == 2.0
  {
    var s: seq<string> := ["a", "a"];
    assert s[..1] == ["a"] && s[..1][..0] == [];
    assert Count(s[..1], {"a"}) == 1;
    assert Count(s, {"a"}) == 2;
    assert PrecisionSum(s[..1], {"a"}) == 1.0;
    assert |{"a"}| == 1;
  }

  /** Average precision with a repeated id counted once, at its first
      position. */
  function APFirstSeen(resultados: seq<string>, relevantes: set<string>): real
  {
    AP(Dedup(resultados), relevantes)
  }

  /** Counting each id once keeps average precision in [0, 1] for every
      ranking, and agrees with `AP` on rankings without repetitions. */
  lemma APFirstSeenBounds(resultados: seq<string>, relevantes: set<string>)
    ensures 0.0 <= APFirstSeen(resultados, relevantes) <= 1.0
    ensures Distinct(resultados) ==> APFirstSeen(resultados, relevantes) == AP(resultados, relevantes)
  {
    APBounds(Dedup(resultados), relevantes);
    if Distinct(resultados) {
      DedupOfDistinct(resultados);
    }
  }

  /** Sum of the average precision of every query, in dictionary order. */
  function APSum(resultadosDict: seq<(string, seq<string>)>, relevantesDict: map<string, set<string>>): real
    requires forall i :: 0 <= i < |resultadosDict| ==> resultadosDict[i].0 in relevantesDict
  {
    if |resultadosDict| == 0 then 0.0
    else
      var last := resultadosDict[|resultadosDict| - 1];
      APSum(resultadosDict[..|resultadosDict| - 1], relevantesDict) + AP(last.1, relevantesDict[last.0])
  }

  /** Mean of the per-query average precisions; 0 for no queries. */
  function MAP(resultadosDict: seq<(string, seq<string>)>, relevantesDict: map<string, set<string>>): real
    requires forall i :: 0 <= i < |resultadosDict| ==> resultadosDict[i].0 in relevantesDict
  {
    if |resultadosDict| == 0 then 0.0 else APSum(resultadosDict, relevantesDict) / |resultadosDict| as real
  }

  /** `mean_average_precision`: the results dictionary is its list of items
      in insertion order; every query must have a relevant set. */
  method MeanAveragePrecision(resultadosDict: seq<(string, seq<string>)>, relevantesDict: map<string, set<string>>)
    returns (mapScore: real)
    requires forall i :: 0 <= i < |resultadosDict| ==> resultadosDict[i].0 in relevantesDict
    ensures mapScore == MAP(resultadosDict, relevantesDict)
  {
    if |resultadosDict| == 0 {
      return 0.0;
    }
    var aps: seq<real> := [];
    var total := 0.0;
    for i := 0 to |resultadosDict|
      invariant |aps| == i
      invariant total == APSum(resultadosDict[..i], relevantesDict)
    {
      var queryId := resultadosDict[i].0;
      var resultados := resultadosDict[i].1;
      var relevantes := relevantesDict[queryId];
      var ap := AveragePrecision(resultados, relevantes);
      assert resultadosDict[..i + 1][..i] == resultadosDict[..i];
      aps := aps + [ap];
      total := total + ap;
    }
    assert resultadosDict[..|resultadosDict|] == resultadosDict;
    mapScore := total / |aps| as real;
  }

  /** When every query's ranking is free of repetitions, MAP lies in
      [0, 1]. */
  lemma MAPBounds(resultadosDict: seq<(string, seq<string>)>, relevantesDict: map<string, set<string>>)
    requires forall i :: 0 <= i < |resultadosDict| ==> resultadosDict[i].0 in relevantesDict
    requires forall i :: 0 <= i < |resultadosDict| ==> Distinct(resultadosDict[i].1)
    ensures 0.0 <= MAP(resultadosDict, relevantesDict) <= 1.0
  {
    if |resultadosDict| != 0 {
      APSumBounds(resultadosDict, relevantesDict);
      var s := APSum(resultadosDict, relevantesDict);
      var n := |resultadosDict| as real;
      RatioBounds(s, s, n);
    }
  }

  lemma {:induction false} APSumBounds(resultadosDict: seq<(string, seq<string>)>, relevantesDict: map<string, set<string>>)
    requires forall i :: 0 <= i < |resultadosDict| ==> resultadosDict[i].0 in relevantesDict
    requires forall i :: 0 <= i < |resultadosDict| ==> Distinct(resultadosDict[i].1)
    ensures 0.0 <= APSum(resultadosDict, relevantesDict) <= |resultadosDict| as real
  {
    if |resultadosDict| > 0 {
      var init := resultadosDict[..|resultadosDict| - 1];
      var last := resultadosDict[|resultadosDict| - 1];
      APSumBounds(init, relevantesDict);
      APBounds(last.1, relevantesDict[last.0]);
    }
  }
}
