/** The question-answering pipeline of `src/modelo_base.py`: security gate,
    history-aware query rewriting, metadata routing, hybrid retrieval fused
    with RRF, cross-encoder reranking, image retrieval and LLM generation.
    Every external service is a function parameter; the calls the pipeline
    makes are returned as a trace, so that which service saw which input
    can be stated. */
module Orchestrator {
  import opened Common
  import opened Ranking
  import opened TextUtils
  import opened Rrf
  import opened SemanticRouter
  import opened Reranker

  // ---------------------------------------------------------------------------
  // validar_seguridad
  // ---------------------------------------------------------------------------

  const ForbiddenPhrases: seq<string> := [
    "ignora tus instrucciones", "olvida tus reglas", "ignore previous instructions",
    "actúa como", "tu nuevo rol es", "system override"
  ]

  /** No forbidden phrase occurs in the lower-cased query. */
  predicate Safe(query: string)
  {
    forall i :: 0 <= i < |ForbiddenPhrases| ==> !IsSubstring(ForbiddenPhrases[i], Lower(query))
  }

  /** `validar_seguridad`: scans the phrases and stops at the first one
      found in the lower-cased query. */
  method ValidateSecurity(query: string) returns (ok: bool)
    ensures ok <==> Safe(query)
    ensures !ok <==> exists i, j :: 0 <= i < |ForbiddenPhrases| && OccursAt(ForbiddenPhrases[i], Lower(query), j)
  {
    var queryLower := Lower(query);
    for i := 0 to |ForbiddenPhrases|
      invariant forall k :: 0 <= k < i ==> !IsSubstring(ForbiddenPhrases[k], queryLower)
    {
      if IsSubstring(ForbiddenPhrases[i], queryLower) {
        IsSubstringIff(ForbiddenPhrases[i], queryLower);
        return false;
      }
    }
    forall i, j | 0 <= i < |ForbiddenPhrases| ensures !OccursAt(ForbiddenPhrases[i], queryLower, j) {
      IsSubstringIff(ForbiddenPhrases[i], queryLower);
    }
    return true;
  }

  /** The phrases are lower-case, so a phrase written in any case is caught:
      a query containing some text whose lower-casing is a forbidden phrase
      is refused. */
  lemma ForbiddenInAnyCase(query: string, written: string, i: nat)
    requires i < |ForbiddenPhrases| && Lower(written) == ForbiddenPhrases[i]
    requires IsSubstring(written, query)
    ensures !Safe(query)
  {
    LowerKeepsSubstring(written, query);
  }

  /** Lower-casing the query first changes nothing. */
  lemma SafeIgnoresCase(query: string)
    ensures Safe(Lower(query)) <==> Safe(query)
  {
    LowerIdempotent(query);
  }

  // ---------------------------------------------------------------------------
  // Conversation history and the rewriter input
  // ---------------------------------------------------------------------------

  /** One turn of the conversation history. */
  datatype Message = Message(role: string, content: string)

  /** `historial[-6:]`. */
  function LastTurns(historial: seq<Message>): (r: seq<Message>)
    ensures |r| == Min(6, |historial|)
    ensures r == historial[|historial| - |r|..]
  {
    PySlice(historial, -6, |historial|)
  }

  function Contents(ms: seq<Message>): (r: seq<string>)
    ensures |r| == |ms| && forall i :: 0 <= i < |ms| ==> r[i] == ms[i].content
  {
    seq(|ms|, i requires 0 <= i < |ms| => ms[i].content)
  }

  /** What the rewriter receives: the query itself without history, else the
      query behind the contents of the last six turns joined by spaces. */
  function RewriterInput(query: string, historial: seq<Message>): string
  {
    if historial == [] then query
    else
      "Contexto de la conversación: " + Join(Contents(LastTurns(historial)), " ")
      + ". Pregunta actual del usuario: " + query
  }

  /** `historial=None` is the empty history. */
  function HistoryOf(historial: Option<seq<Message>>): seq<Message>
  {
    if historial.Some? then historial.value else []
  }

  /** Without history the rewriter gets the query unchanged; with history
      only the last six turns matter, and the query comes last. */
  lemma RewriterInputUsesLastSix(query: string, historial: seq<Message>)
    ensures historial == [] ==> RewriterInput(query, historial) == query
    ensures |historial| > 6 ==>
      RewriterInput(query, historial) == RewriterInput(query, historial[|historial| - 6..])
    ensures historial != [] ==>
      var r := RewriterInput(query, historial);
      |r| >= |query| && r[|r| - |query|..] == query
  {
    if |historial| > 6 {
      var tail := historial[|historial| - 6..];
      assert LastTurns(tail) == tail == LastTurns(historial);
    }
    if historial != [] {
      var r := RewriterInput(query, historial);
      var pre := "Contexto de la conversación: " + Join(Contents(LastTurns(historial)), " ")
        + ". Pregunta actual del usuario: ";
      assert r == pre + query;
      assert r[|pre|..] == query;
    }
  }

  // ---------------------------------------------------------------------------
  // External services
  // ---------------------------------------------------------------------------

  /** What the image collection returns for one query. */
  datatype ImageResult = ImageResult(ids: seq<seq<Id>>, metadatas: seq<seq<Option<Metadata>>>)

  /** The services the pipeline calls:
      - `rewrite`: the LLM query rewriter;
      - `denseText`: embedding plus vector query on the text collection
        (query text, metadata filter, number of results);
      - `corpus`: the whole text collection, as `get()` returns it;
      - `bm25`: BM25 scores of a tokenised corpus for query tokens;
      - `fetch`: `get(ids=...)` on the text collection;
      - `predict`: the cross-encoder;
      - `imageSearch`: image embedding plus vector query on the image
        collection (query text, number of results);
      - `fileExists`: whether a file exists;
      - `generate`: the LLM answer for a message list;
      - `formatScore`: `f"{score:.2f}"`. */
  datatype Services = Services(
    rewrite: string -> string,
    denseText: (string, Option<Filter>, nat) -> seq<seq<Id>>,
    corpus: Collection,
    bm25: Bm25Scorer,
    fetch: seq<Id> -> Collection,
    predict: CrossEncoder,
    imageSearch: (string, nat) -> ImageResult,
    fileExists: string -> bool,
    generate: seq<Message> -> string,
    formatScore: real -> string)

  predicate Aligned(c: Collection)
  {
    |c.ids| == |c.documents| == |c.metadatas|
  }

  /** What the services guarantee in shape: collections are aligned lists,
      BM25 and the cross-encoder give one score per input, and an image query
      has as many metadata lists as id lists. */
  ghost predicate WellBehaved(svc: Services)
  {
    && Aligned(svc.corpus)
    && (forall ids :: Aligned(svc.fetch(ids)))
    && (forall corpus, q :: |svc.bm25(corpus, q)| == |corpus|)
    && (forall pairs :: |svc.predict(pairs)| == |pairs|)
    && (forall q, n :: |svc.imageSearch(q, n).metadatas| == |svc.imageSearch(q, n).ids|)
  }

  /** One call the pipeline made to a service. */
  datatype Call =
    | RewriteCall(input: string)
    | DenseTextCall(query: string, filter: Option<Filter>, n: nat)
    | Bm25Call(queryTokens: seq<string>)
    | FetchCall(ids: seq<Id>)
    | RerankCall(query: string, candidates: seq<Candidate>, topK: int)
    | ImageCall(query: string, n: nat)
    | GenerateCall(messages: seq<Message>)

  /** The answer dictionary. */
  datatype Answer = Answer(respuesta: string, fuentes: seq<MetaValue>, imagenes: seq<string>, contextoUsado: string)

  const Refusal := Answer("Lo siento, no puedo procesar esa solicitud por motivos de seguridad.", [], [],
                          "Bloqueado por seguridad")
  const NoInformation := Answer("Lo siento, no he encontrado información relevante en mis guías.", [], [], "")

  const DenseCandidates: nat := 20
  const Bm25Candidates: int := 20
  const FusionCut: int := 15
  const ImageResults: nat := 3

  // ---------------------------------------------------------------------------
  // Retrieval steps
  // ---------------------------------------------------------------------------

  /** `res_sem['ids'][0] if res_sem['ids'] else []`. */
  function FirstOrEmpty(ids: seq<seq<Id>>): seq<Id>
  {
    if ids != [] then ids[0] else []
  }

  /** The rewritten query every text step uses. */
  function OptimizedQuery(svc: Services, query: string, historial: seq<Message>): string
  {
    svc.rewrite(RewriterInput(query, historial))
  }

  /** The fused ids that go on to reranking: the dense ranking (with the
      routing filter) and the BM25 ranking of the whole collection, fused
      and cut to 15. */
  function FusedCandidates(svc: Services, q: string): seq<Id>
    requires WellBehaved(svc)
  {
    var sem := FirstOrEmpty(svc.denseText("query: " + q, DetectFilters(q), DenseCandidates));
    var bm := Bm25Ranking(svc.corpus.ids, Bm25Scores(q, svc.corpus.documents, svc.bm25), Bm25Candidates);
    TopFused(sem, bm, FusionCut)
  }

  /** At most 15 ids go on to reranking, without repetitions, each from the
      dense ranking or the collection. */
  lemma FusedCandidatesBounds(svc: Services, q: string)
    requires WellBehaved(svc)
    ensures var top := FusedCandidates(svc, q);
      && |top| <= 15
      && Distinct(top)
      && forall t :: 0 <= t < |top| ==>
           top[t] in FirstOrEmpty(svc.denseText("query: " + q, DetectFilters(q), DenseCandidates))
           || top[t] in svc.corpus.ids
  {
    var sem := FirstOrEmpty(svc.denseText("query: " + q, DetectFilters(q), DenseCandidates));
    var scores := Bm25Scores(q, svc.corpus.documents, svc.bm25);
    var bm := Bm25Ranking(svc.corpus.ids, scores, Bm25Candidates);
    assert FusedCandidates(svc, q) == TopFused(sem, bm, FusionCut);
    Bm25RankingSelects(svc.corpus.ids, scores, Bm25Candidates);
    TopFusedFromRankings(sem, bm, FusionCut);
    TopFusedDistinct(sem, bm, FusionCut);
  }

  /** BM25 can be built on the whole text collection: some document keeps
      a token after normalisation. */
  predicate CorpusIndexable(svc: Services)
  {
    Bm25Builds(TokenizeCorpus(svc.corpus.documents))
  }

  /** Whenever BM25 can be built, fusion yields at least one id: the BM25
      ranking then holds a collection id, and fusion keeps every id of
      either ranking. So the "no information" answer needs a collection
      BM25 cannot be built on. */
  lemma FusedCandidatesNonEmpty(svc: Services, q: string)
    requires WellBehaved(svc) && CorpusIndexable(svc)
    ensures FusedCandidates(svc, q) != []
  {
    var sem := FirstOrEmpty(svc.denseText("query: " + q, DetectFilters(q), DenseCandidates));
    var scores := Bm25Scores(q, svc.corpus.documents, svc.bm25);
    var bm := Bm25Ranking(svc.corpus.ids, scores, Bm25Candidates);
    assert |bm| > 0 by {
      Bm25BuildsNonEmpty(svc.corpus.documents);
      Bm25RankingSelects(svc.corpus.ids, scores, Bm25Candidates);
    }
    TopFusedNonEmpty(sem, bm);
    assert FusedCandidates(svc, q) == TopFused(sem, bm, FusionCut);
  }

  /** Fusing a non-empty BM25 ranking leaves at least one id after the cut. */
  lemma TopFusedNonEmpty(sem: seq<Id>, bm: seq<Id>)
    requires |bm| > 0
    ensures TopFused(sem, bm, FusionCut) != []
  {
    FusedCovers(sem, bm, RrfK, bm[0]);
    assert |SliceTo(Fused(sem, bm, RrfK), FusionCut)| > 0;
  }

  /** The fused ids with BM25 skipped when it cannot be built, the guard
      `buscar_texto_hibrido` applies to an empty collection. */
  function GuardedCandidates(svc: Services, q: string): seq<Id>
    requires WellBehaved(svc)
  {
    if CorpusIndexable(svc) then FusedCandidates(svc, q)
    else TopFused(FirstOrEmpty(svc.denseText("query: " + q, DetectFilters(q), DenseCandidates)), [], FusionCut)
  }

  /** With that guard, fusion yields nothing exactly when BM25 cannot be
      built and the dense search found nothing, so the "no information"
      answer is reachable. */
  lemma GuardedCandidatesEmptyIff(svc: Services, q: string)
    requires WellBehaved(svc)
    ensures GuardedCandidates(svc, q) == [] <==>
      !CorpusIndexable(svc) && FirstOrEmpty(svc.denseText("query: " + q, DetectFilters(q), DenseCandidates)) == []
  {
    var sem := FirstOrEmpty(svc.denseText("query: " + q, DetectFilters(q), DenseCandidates));
    if CorpusIndexable(svc) {
      FusedCandidatesNonEmpty(svc, q);
    } else if |sem| > 0 {
      FusedCovers(sem, [], RrfK, sem[0]);
      assert |SliceTo(Fused(sem, [], RrfK), FusionCut)| > 0;
      assert GuardedCandidates(svc, q) == TopFused(sem, [], FusionCut);
    } else {
      assert |Dedup(sem + [])| == 0;
    }
  }

  /** Metadata as the reranker receives it: a missing or empty one becomes
      `{}`. */
  function MetaOrEmpty(m: Option<Metadata>): (r: Metadata)
    ensures r == map[] <==> m.None? || m.value == map[]
    ensures m.Some? && m.value != map[] ==> r == m.value
  {
    if m.Some? && m.value != map[] then m.value else map[]
  }

  /** The rerank input built from the fetched collection entries. */
  function RerankInput(fetched: Collection): seq<Candidate>
    requires Aligned(fetched)
  {
    seq(|fetched.ids|, i requires 0 <= i < |fetched.ids| =>
      Candidate(fetched.documents[i], MetaOrEmpty(fetched.metadatas[i]), fetched.ids[i]))
  }

  /** The rerank input is aligned by index with the fetched ids, documents
      and metadata. */
  lemma RerankInputAligned(fetched: Collection, i: nat)
    requires Aligned(fetched) && i < |fetched.ids|
    ensures |RerankInput(fetched)| == |fetched.ids|
    ensures RerankInput(fetched)[i].id == fetched.ids[i]
    ensures RerankInput(fetched)[i].texto == fetched.documents[i]
    ensures fetched.metadatas[i].None? ==> RerankInput(fetched)[i].metadata == map[]
    ensures fetched.metadatas[i].Some? ==> RerankInput(fetched)[i].metadata == fetched.metadatas[i].value
  {
  }

  // ---------------------------------------------------------------------------
  // Image paths
  // ---------------------------------------------------------------------------

  /** `os.path.basename`: the part after the last '/'. */
  function Basename(p: string): (r: string)
    ensures '/' !in r
    ensures |r| <= |p| && r == p[|p| - |r|..]
    ensures |r| < |p| ==> p[|p| - |r| - 1] == '/'
  {
    if p == [] || p[|p| - 1] == '/' then []
    else Basename(p[..|p| - 1]) + [p[|p| - 1]]
  }

  /** `str(base_dir / "data" / "imagenes_extraidas" / name)`; an empty or
      "." name adds no component. */
  function RebuiltPath(baseDir: string, name: string): (r: string)
    ensures baseDir + "/data/imagenes_extraidas" <= r
  {
    baseDir + "/data/imagenes_extraidas" + (if name == "" || name == "." then "" else "/" + name)
  }

  /** The path checked for one metadata entry, if it has one. */
  ghost predicate PathOf(m: Option<Metadata>, baseDir: string, ruta: string)
  {
    m.Some? && "imagen_path" in m.value && m.value["imagen_path"].Str?
    && ruta == RebuiltPath(baseDir, Basename(m.value["imagen_path"].s))
  }

  /** An entry whose `imagen_path` is not a string: basename raises. */
  ghost predicate BadPath(m: Option<Metadata>)
  {
    m.Some? && "imagen_path" in m.value && !m.value["imagen_path"].Str?
  }

  /** What one image result contributes: its rebuilt path when that file
      exists, nothing when it has no path or the file is missing, and
      `None` for the exception. */
  function PathStep(m: Option<Metadata>, baseDir: string, fileExists: string -> bool): (r: Option<seq<string>>)
    ensures r.None? <==> BadPath(m)
  {
    if m.None? || "imagen_path" !in m.value then Some([])
    else if m.value["imagen_path"].Str? then
      var ruta := RebuiltPath(baseDir, Basename(m.value["imagen_path"].s));
      Some(if fileExists(ruta) then [ruta] else [])
    else None
  }

  /** One result contributes at most its own rebuilt path, and only when
      that file exists. */
  lemma PathStepMember(m: Option<Metadata>, baseDir: string, fileExists: string -> bool, ruta: string)
    requires PathStep(m, baseDir, fileExists).Some?
    ensures |PathStep(m, baseDir, fileExists).value| <= 1
    ensures ruta in PathStep(m, baseDir, fileExists).value <==> PathOf(m, baseDir, ruta) && fileExists(ruta)
  {
    if m.Some? && "imagen_path" in m.value {
      var p := RebuiltPath(baseDir, Basename(m.value["imagen_path"].s));
      assert PathStep(m, baseDir, fileExists).value == (if fileExists(p) then [p] else []);
      assert PathOf(m, baseDir, ruta) <==> ruta == p;
    } else {
      assert PathStep(m, baseDir, fileExists).value == [];
    }
  }

  /** The checked image paths of the metadata entries in order, or `None`
      once one of them raises. */
  function ImagePaths(metas: seq<Option<Metadata>>, baseDir: string, fileExists: string -> bool): Option<seq<string>>
  {
    if metas == [] then Some([])
    else
      match ImagePaths(metas[..|metas| - 1], baseDir, fileExists)
      case None => None
      case Some(ps) =>
        match PathStep(metas[|metas| - 1], baseDir, fileExists)
        case None => None
        case Some(more) => Some(ps + more)
  }

  /** Result `i` contributes `ruta` to the image list. */
  ghost predicate YieldsAt(metas: seq<Option<Metadata>>, i: int, baseDir: string,
                           fileExists: string -> bool, ruta: string)
  {
    0 <= i < |metas| && PathStep(metas[i], baseDir, fileExists) == Some([ruta])
  }

  /** Every listed path comes from some result. */
  lemma {:induction false} ImagePathsSource(metas: seq<Option<Metadata>>, baseDir: string,
                                            fileExists: string -> bool, ruta: string)
    returns (i: int)
    requires ImagePaths(metas, baseDir, fileExists).Some?
    requires ruta in ImagePaths(metas, baseDir, fileExists).value
    ensures YieldsAt(metas, i, baseDir, fileExists, ruta)
  {
    var n := |metas| - 1;
    var pre := metas[..n];
    var ps0 := ImagePaths(pre, baseDir, fileExists).value;
    var more := PathStep(metas[n], baseDir, fileExists).value;
    PathStepMember(metas[n], baseDir, fileExists, ruta);
    assert ImagePaths(metas, baseDir, fileExists).value == ps0 + more;
    if ruta in ps0 {
      i := ImagePathsSource(pre, baseDir, fileExists, ruta);
      assert metas[i] == pre[i];
    } else {
      assert more == [ruta];
      i := n;
    }
  }

  /** Every result's contribution is listed, and the list is no longer than
      the results. */
  lemma {:induction false} ImagePathsKeep(metas: seq<Option<Metadata>>, baseDir: string,
                                          fileExists: string -> bool, ruta: string, i: int)
    requires ImagePaths(metas, baseDir, fileExists).Some?
    ensures |ImagePaths(metas, baseDir, fileExists).value| <= |metas|
    ensures YieldsAt(metas, i, baseDir, fileExists, ruta) ==> ruta in ImagePaths(metas, baseDir, fileExists).value
  {
    if metas != [] {
      var n := |metas| - 1;
      var pre := metas[..n];
      var ps0 := ImagePaths(pre, baseDir, fileExists).value;
      var more := PathStep(metas[n], baseDir, fileExists).value;
      assert ImagePaths(metas, baseDir, fileExists).value == ps0 + more;
      ImagePathsKeep(pre, baseDir, fileExists, ruta, i);
      if YieldsAt(metas, i, baseDir, fileExists, ruta) {
        if i < n {
          assert metas[i] == pre[i];
          assert YieldsAt(pre, i, baseDir, fileExists, ruta);
          assert ruta in ps0;
        } else {
          assert i == n;
          assert more == [ruta];
          assert (ps0 + more)[|ps0|] == ruta;
        }
      }
    }
  }

  /** The image list holds exactly the rebuilt paths that exist, and at
      most one per result. */
  lemma ImagePathsSelect(metas: seq<Option<Metadata>>, baseDir: string,
                         fileExists: string -> bool, ruta: string)
    requires ImagePaths(metas, baseDir, fileExists).Some?
    ensures |ImagePaths(metas, baseDir, fileExists).value| <= |metas|
    ensures ruta in ImagePaths(metas, baseDir, fileExists).value <==>
      exists i :: 0 <= i < |metas| && PathOf(metas[i], baseDir, ruta) && fileExists(ruta)
  {
    var ps := ImagePaths(metas, baseDir, fileExists).value;
    ImagePathsKeep(metas, baseDir, fileExists, ruta, 0);
    if i :| 0 <= i < |metas| && PathOf(metas[i], baseDir, ruta) && fileExists(ruta) {
      assert ruta in ps by {
        PathStepMember(metas[i], baseDir, fileExists, ruta);
        ImagePathsKeep(metas, baseDir, fileExists, ruta, i);
      }
    }
    if ruta in ps {
      var i := ImagePathsSource(metas, baseDir, fileExists, ruta);
      PathStepMember(metas[i], baseDir, fileExists, ruta);
      assert PathOf(metas[i], baseDir, ruta) && fileExists(ruta);
    }
  }

  /** Every listed path exists and lies under `base_dir/data/imagenes_extraidas`. */
  lemma {:induction false} ImagePathsChecked(metas: seq<Option<Metadata>>, baseDir: string, fileExists: string -> bool)
    requires ImagePaths(metas, baseDir, fileExists).Some?
    ensures var ps := ImagePaths(metas, baseDir, fileExists).value;
      forall t :: 0 <= t < |ps| ==> fileExists(ps[t]) && baseDir + "/data/imagenes_extraidas" <= ps[t]
  {
    if metas != [] {
      var pre := metas[..|metas| - 1];
      ImagePathsChecked(pre, baseDir, fileExists);
      var ps0 := ImagePaths(pre, baseDir, fileExists).value;
      var m := metas[|metas| - 1];
      var more := PathStep(m, baseDir, fileExists).value;
      var ps := ps0 + more;
      forall t | 0 <= t < |ps| ensures fileExists(ps[t]) && baseDir + "/data/imagenes_extraidas" <= ps[t] {
        if t >= |ps0| {
          assert ps[t] in more;
          assert PathOf(m, baseDir, ps[t]);
        } else {
          assert ps[t] == ps0[t];
        }
      }
    }
  }

  /** The image step fails exactly when some result carries an
      `imagen_path` that is not a string. */
  lemma {:induction false} ImagePathsFailure(metas: seq<Option<Metadata>>, baseDir: string, fileExists: string -> bool)
    ensures ImagePaths(metas, baseDir, fileExists).None? <==> exists i :: 0 <= i < |metas| && BadPath(metas[i])
  {
    if metas != [] {
      var pre := metas[..|metas| - 1];
      ImagePathsFailure(pre, baseDir, fileExists);
      assert forall i :: 0 <= i < |pre| ==> metas[i] == pre[i];
    }
  }

  /** The checked image paths for the results of the image query. */
  function ImageStep(res: ImageResult, baseDir: string, fileExists: string -> bool): Option<seq<string>>
    requires |res.metadatas| == |res.ids|
  {
    if res.ids != [] && res.ids[0] != [] then ImagePaths(res.metadatas[0], baseDir, fileExists) else Some([])
  }

  // ---------------------------------------------------------------------------
  // Generation and sources
  // ---------------------------------------------------------------------------

  function IntToString(i: int): string
  {
    if i < 0 then "-" + NatToString(-i) else NatToString(i)
  }

  function Quoted(items: seq<string>): (r: seq<string>)
    ensures |r| == |items|
  {
    seq(|items|, i requires 0 <= i < |items| => "'" + items[i] + "'")
  }

  /** `f"{value}"` for a metadata value. */
  function MetaText(v: MetaValue): string
  {
    match v
    case Str(s) => s
    case Int(i) => IntToString(i)
    case StrList(items) => "[" + Join(Quoted(items), ", ") + "]"
    case Null => "None"
  }

  /** The context block of one reranked chunk. */
  function ContextEntry(d: (Candidate, real), formatScore: real -> string): string
  {
    "--- Fuente: " + MetaText(GetOr(d.0.metadata, "nombre_archivo", Str("Doc Desconocido")))
    + " (Score: " + formatScore(d.1) + ") ---\n" + d.0.texto
  }

  function ContextEntries(best: seq<(Candidate, real)>, formatScore: real -> string): (r: seq<string>)
    ensures |r| == |best|
  {
    seq(|best|, i requires 0 <= i < |best| => ContextEntry(best[i], formatScore))
  }

  /** `contexto_texto`: the entries separated by blank lines. */
  function ContextText(best: seq<(Candidate, real)>, formatScore: real -> string): string
  {
    Join(ContextEntries(best, formatScore), "\n\n")
  }

  /** The messages sent to the LLM: the system prompt, the history, then
      the question with the context. */
  function Messages(systemPrompt: string, historial: seq<Message>, query: string, contexto: string): seq<Message>
  {
    [Message("system", systemPrompt)] + historial
    + [Message("user", "Pregunta viajero: " + query + "\n\nContexto:\n" + contexto)]
  }

  /** The source name of a reranked chunk. */
  function SourceName(d: (Candidate, real)): MetaValue
  {
    GetOr(d.0.metadata, "nombre_archivo", Str("Desconocido"))
  }

  /** The source names of the reranked chunks, in order. */
  function SourceNames(best: seq<(Candidate, real)>): (r: seq<MetaValue>)
    ensures |r| == |best| && forall i :: 0 <= i < |best| ==> r[i] == SourceName(best[i])
  {
    seq(|best|, i requires 0 <= i < |best| => SourceName(best[i]))
  }

  /** `list(set(names))`: `None` when a name is a list, which `set` cannot
      hash (the TypeError). Python leaves the order of a set unspecified;
      the order of first occurrence is one it may produce. */
  function Sources(best: seq<(Candidate, real)>): Option<seq<MetaValue>>
  {
    if exists i :: 0 <= i < |best| && SourceName(best[i]).StrList? then None
    else Some(Dedup(SourceNames(best)))
  }

  /** The sources fail exactly when a name is a list; otherwise every
      reranked chunk's source name is listed exactly once, and nothing else
      is. */
  lemma SourcesExactlyOnce(best: seq<(Candidate, real)>)
    ensures Sources(best).None? <==> exists i :: 0 <= i < |best| && SourceName(best[i]).StrList?
    ensures Sources(best).Some? ==> Distinct(Sources(best).value)
    ensures Sources(best).Some? ==>
      forall v :: v in Sources(best).value <==> exists i :: 0 <= i < |best| && v == SourceName(best[i])
  {
    var names := SourceNames(best);
    forall v ensures v in Dedup(names) <==> exists i :: 0 <= i < |best| && v == SourceName(best[i]) {
      DedupMember(names, v);
      if v in names {
        var i :| 0 <= i < |names| && names[i] == v;
        assert v == SourceName(best[i]);
      }
      if exists i :: 0 <= i < |best| && v == SourceName(best[i]) {
        var i :| 0 <= i < |best| && v == SourceName(best[i]);
        assert names[i] == v;
      }
    }
  }

  // ---------------------------------------------------------------------------
  // generar_respuesta
  // ---------------------------------------------------------------------------

  /** The reranked chunks for the fused candidates. */
  function BestChunks(svc: Services, q: string, top: seq<Id>, topK: int): seq<(Candidate, real)>
    requires WellBehaved(svc)
  {
    var cands := RerankInput(svc.fetch(top));
    Reranked(cands, svc.predict(SentencePairs(q, cands)), topK)
  }

  /** Builds the rewriter input from the query and the history. */
  method BuildRewriterInput(queryUsuario: string, historial: seq<Message>) returns (queryParaRewriting: string)
    ensures queryParaRewriting == RewriterInput(queryUsuario, historial)
  {
    queryParaRewriting := queryUsuario;
    if historial != [] {
      var ultimosMensajes := PySlice(historial, -6, |historial|);
      var textoHistorial := Join(Contents(ultimosMensajes), " ");
      queryParaRewriting := "Contexto de la conversación: " + textoHistorial
        + ". Pregunta actual del usuario: " + queryUsuario;
    }
  }

  /** The calls of the retrieval step: the dense search with the routing
      filter, then BM25 scoring when BM25 could be built. */
  function RetrievalCalls(svc: Services, q: string): seq<Call>
  {
    [DenseTextCall("query: " + q, DetectFilters(q), DenseCandidates)]
    + (if CorpusIndexable(svc) then [Bm25Call(Tokens(q))] else [])
  }

  /** Routing, dense search, BM25 and fusion on the rewritten query: the
      first 15 fused ids, or `None` for the exception `BM25Okapi` raises on
      a collection without a single token (an empty one included). */
  method RetrieveFused(svc: Services, queryOptimizada: string) returns (topIds: Option<seq<Id>>, calls: seq<Call>)
    requires WellBehaved(svc)
    ensures CorpusIndexable(svc) ==> topIds == Some(FusedCandidates(svc, queryOptimizada))
    ensures !CorpusIndexable(svc) ==> topIds.None?
    ensures calls == RetrievalCalls(svc, queryOptimizada)
  {
    var filtrosMetadata := DetectFilters(queryOptimizada);
    var resSem := svc.denseText("query: " + queryOptimizada, filtrosMetadata, DenseCandidates);
    var idsSemanticos := if resSem != [] then resSem[0] else [];
    calls := [DenseTextCall("query: " + queryOptimizada, filtrosMetadata, DenseCandidates)];
    var todosDocs := svc.corpus;
    var tokenizedCorpus := TokenizeCorpus(todosDocs.documents);
    if !Bm25Builds(tokenizedCorpus) {
      return None, calls;
    }
    var scores := svc.bm25(tokenizedCorpus, Tokens(queryOptimizada));
    calls := calls + [Bm25Call(Tokens(queryOptimizada))];
    var idsBm25 := Bm25Ranking(todosDocs.ids, scores, Bm25Candidates);
    var rankedTuples := FuseRrf(idsSemanticos, idsBm25, RrfK);
    topIds := Some(Keys(SliceTo(rankedTuples, FusionCut)));
  }

  /** The rerank input loop: one candidate per fetched entry. */
  method BuildRerankInput(docsCandidatos: Collection) returns (listaParaRerank: seq<Candidate>)
    requires Aligned(docsCandidatos)
    ensures listaParaRerank == RerankInput(docsCandidatos)
  {
    listaParaRerank := [];
    for i := 0 to |docsCandidatos.ids|
      invariant listaParaRerank == RerankInput(docsCandidatos)[..i]
    {
      var meta := if docsCandidatos.metadatas[i].Some? && docsCandidatos.metadatas[i].value != map[]
                  then docsCandidatos.metadatas[i].value else map[];
      listaParaRerank := listaParaRerank + [Candidate(docsCandidatos.documents[i], meta, docsCandidatos.ids[i])];
    }
  }

  /** The body of the image loop for one result: `None` when basename
      raises, else the rebuilt path if that file exists. */
  method CheckImage(meta: Option<Metadata>, baseDir: string, fileExists: string -> bool)
    returns (r: Option<seq<string>>)
    ensures r == PathStep(meta, baseDir, fileExists)
  {
    if meta.None? || "imagen_path" !in meta.value {
      r := Some([]);
    } else if !meta.value["imagen_path"].Str? {
      r := None;
    } else {
      var nombreArchivo := Basename(meta.value["imagen_path"].s);
      var rutaAbsoluta := RebuiltPath(baseDir, nombreArchivo);
      r := if fileExists(rutaAbsoluta) then Some([rutaAbsoluta]) else Some([]);
    }
  }

  /** The image loop: keeps the rebuilt paths that exist; `None` for the
      exception raised by a path that is not a string. */
  method CollectImagePaths(resImg: ImageResult, baseDir: string, fileExists: string -> bool)
    returns (rutas: Option<seq<string>>)
    requires |resImg.metadatas| == |resImg.ids|
    ensures rutas == ImageStep(resImg, baseDir, fileExists)
  {
    var rutasImagenes: seq<string> := [];
    if resImg.ids != [] && resImg.ids[0] != [] {
      var metas := resImg.metadatas[0];
      for j := 0 to |metas|
        invariant ImagePaths(metas[..j], baseDir, fileExists) == Some(rutasImagenes)
      {
        ImagePathsNext(metas, baseDir, fileExists, j, rutasImagenes);
        var found := CheckImage(metas[j], baseDir, fileExists);
        if found.None? {
          ImagePathsFailsOnward(metas, baseDir, fileExists, j + 1);
          return None;
        }
        rutasImagenes := rutasImagenes + found.value;
      }
      assert metas[..|metas|] == metas;
    }
    return Some(rutasImagenes);
  }

  /** The calls of the search phase: the rewriter, then the retrieval
      calls on the rewritten query. */
  function SearchCalls(svc: Services, queryUsuario: string, historial: seq<Message>): seq<Call>
  {
    [RewriteCall(RewriterInput(queryUsuario, historial))]
    + RetrievalCalls(svc, OptimizedQuery(svc, queryUsuario, historial))
  }

  /** The calls made once fusion found candidates: fetch, rerank (on the
      rewritten query) and the image search (on the original query). */
  function PrepareCalls(svc: Services, queryUsuario: string, q: string, top: seq<Id>, topK: int): seq<Call>
    requires WellBehaved(svc)
  {
    [FetchCall(top), RerankCall(q, RerankInput(svc.fetch(top)), topK), ImageCall(queryUsuario, ImageResults)]
  }

  /** Rewriting, routing, dense search, BM25 and fusion; `None` when BM25
      cannot be built on the collection. */
  method Search(svc: Services, queryUsuario: string, historial: seq<Message>)
    returns (q: string, top: Option<seq<Id>>, calls: seq<Call>)
    requires WellBehaved(svc)
    ensures q == OptimizedQuery(svc, queryUsuario, historial)
    ensures CorpusIndexable(svc) ==> top == Some(FusedCandidates(svc, q))
    ensures !CorpusIndexable(svc) ==> top.None?
    ensures calls == SearchCalls(svc, queryUsuario, historial)
  {
    var queryParaRewriting := BuildRewriterInput(queryUsuario, historial);
    q := svc.rewrite(queryParaRewriting);
    var searchCalls;
    top, searchCalls := RetrieveFused(svc, q);
    calls := [RewriteCall(queryParaRewriting)] + searchCalls;
  }

  /** Everything after fusion found candidates: fetch and rerank, the image
      paths, and the LLM answer unless an image path raised; a source name
      that is a list raises after the LLM call. */
  method Respond(svc: Services, baseDir: string, systemPrompt: string, queryUsuario: string,
                 historial: seq<Message>, q: string, top: seq<Id>, topK: int)
    returns (res: Option<Answer>, calls: seq<Call>)
    requires WellBehaved(svc)
    ensures var best := BestChunks(svc, q, top, topK);
      var paths := ImageStep(svc.imageSearch(queryUsuario, ImageResults), baseDir, svc.fileExists);
      var msgs := Messages(systemPrompt, historial, queryUsuario, ContextText(best, svc.formatScore));
      && (paths.None? ==> res.None? && calls == PrepareCalls(svc, queryUsuario, q, top, topK))
      && (paths.Some? ==>
            && calls == PrepareCalls(svc, queryUsuario, q, top, topK) + [GenerateCall(msgs)]
            && (Sources(best).None? ==> res.None?)
            && (Sources(best).Some? ==>
                  res == Some(Answer(svc.generate(msgs), Sources(best).value, paths.value,
                                     ContextText(best, svc.formatScore)))))
  {
    var docsCandidatos := svc.fetch(top);
    var listaParaRerank := BuildRerankInput(docsCandidatos);
    var mejoresDocs := Rerank(q, listaParaRerank, svc.predict, topK);
    var resImg := svc.imageSearch(queryUsuario, ImageResults);
    calls := [FetchCall(top), RerankCall(q, listaParaRerank, topK), ImageCall(queryUsuario, ImageResults)];
    var rutasImagenes := CollectImagePaths(resImg, baseDir, svc.fileExists);
    if rutasImagenes.None? {
      res := None;
    } else {
      var contextoTexto := ContextText(mejoresDocs, svc.formatScore);
      var messagesFinales := Messages(systemPrompt, historial, queryUsuario, contextoTexto);
      var respuesta := svc.generate(messagesFinales);
      calls := calls + [GenerateCall(messagesFinales)];
      var listaFuentes := Sources(mejoresDocs);
      res := if listaFuentes.None? then None
             else Some(Answer(respuesta, listaFuentes.value, rutasImagenes.value, contextoTexto));
    }
  }

  /** `generar_respuesta`. A query that fails the security gate is refused
      before any service is called. Otherwise the rewriter, the dense search
      (with the routing filter) and BM25 all work on the rewritten query;
      a collection BM25 cannot be built on raises there. When fusion yields
      nothing the fixed "no information" answer is returned and neither the
      reranker, the image search nor the LLM is called. Otherwise the best
      15 fused ids are fetched and reranked, the image search runs on the
      ORIGINAL query, and the LLM answers from the reranked context. `None`
      stands for an exception: BM25 on a collection without a token, an
      image path that is not a string, or a source name that is a list. */
  method GenerateAnswer(svc: Services, baseDir: string, systemPrompt: string,
                        queryUsuario: string, topK: int, historialIn: Option<seq<Message>>)
    returns (res: Option<Answer>, trace: seq<Call>)
    requires WellBehaved(svc)
    ensures !Safe(queryUsuario) ==> res == Some(Refusal) && trace == []
    ensures Safe(queryUsuario) ==>
      var historial := HistoryOf(historialIn);
      var q := OptimizedQuery(svc, queryUsuario, historial);
      var top := FusedCandidates(svc, q);
      var searched := SearchCalls(svc, queryUsuario, historial);
      && (!CorpusIndexable(svc) ==> res.None? && trace == searched)
      && (CorpusIndexable(svc) && top == [] ==> res == Some(NoInformation) && trace == searched)
      && (CorpusIndexable(svc) && top != [] ==>
            var best := BestChunks(svc, q, top, topK);
            var paths := ImageStep(svc.imageSearch(queryUsuario, ImageResults), baseDir, svc.fileExists);
            var msgs := Messages(systemPrompt, historial, queryUsuario, ContextText(best, svc.formatScore));
            var prepared := searched + PrepareCalls(svc, queryUsuario, q, top, topK);
            && (paths.None? ==> res.None? && trace == prepared)
            && (paths.Some? ==>
                  && trace == prepared + [GenerateCall(msgs)]
                  && (Sources(best).None? ==> res.None?)
                  && (Sources(best).Some? ==>
                        res == Some(Answer(svc.generate(msgs), Sources(best).value, paths.value,
                                           ContextText(best, svc.formatScore))))))
  {
    var seguro := ValidateSecurity(queryUsuario);
    if !seguro {
      res, trace := Some(Refusal), [];
    } else {
      var historial := if historialIn.None? then [] else historialIn.value;
      var queryOptimizada, topFusionados, searchCalls := Search(svc, queryUsuario, historial);
      if topFusionados.None? {
        res, trace := None, searchCalls;
      } else if topFusionados.value == [] {
        res, trace := Some(NoInformation), searchCalls;
      } else {
        var topIdsFusionados := topFusionados.value;
        var answerCalls;
        res, answerCalls := Respond(svc, baseDir, systemPrompt, queryUsuario, historial,
                                    queryOptimizada, topIdsFusionados, topK);
        trace := searchCalls + answerCalls;
        ghost var best := BestChunks(svc, queryOptimizada, topIdsFusionados, topK);
        ghost var msgs := Messages(systemPrompt, historial, queryUsuario, ContextText(best, svc.formatScore));
        ConcatAssoc(searchCalls, PrepareCalls(svc, queryUsuario, queryOptimizada, topIdsFusionados, topK),
                    [GenerateCall(msgs)]);
      }
    }
  }

  /** One more image result. */
  lemma ImagePathsNext(metas: seq<Option<Metadata>>, baseDir: string, fileExists: string -> bool,
                       j: nat, ps: seq<string>)
    requires j < |metas| && ImagePaths(metas[..j], baseDir, fileExists) == Some(ps)
    ensures ImagePaths(metas[..j + 1], baseDir, fileExists) ==
      match PathStep(metas[j], baseDir, fileExists)
      case None => None
      case Some(more) => Some(ps + more)
  {
    assert metas[..j + 1][..j] == metas[..j];
  }

  /** Once a prefix of the image results fails, all of them do. */
  lemma {:induction false} ImagePathsFailsOnward(metas: seq<Option<Metadata>>, baseDir: string,
                                                 fileExists: string -> bool, n: nat)
    requires n <= |metas| && ImagePaths(metas[..n], baseDir, fileExists).None?
    ensures ImagePaths(metas, baseDir, fileExists).None?
    decreases |metas| - n
  {
    if n < |metas| {
      assert metas[..n + 1][..n] == metas[..n];
      ImagePathsFailsOnward(metas, baseDir, fileExists, n + 1);
    } else {
      assert metas[..n] == metas;
    }
  }
}
