# RAG-Turismo retrieval and ranking, in Dafny

A model of the retrieval-and-ranking core of RAG-Turismo, the question-answering
system for Spain and Japan travel guides. It includes proofs of what that core
promises.

The model follows the Python modules one by one:

- **`Rrf`** (`src/rrf.py`) models three steps:
  - Reciprocal Rank Fusion of a dense and a BM25 ranking. Each id at 0-based position `p` adds `1/(k+p+1)` to its entry in an insertion-ordered dictionary. The entries are then sorted by descending score with a stable sort.
  - Top-N selection over BM25 scores.
  - Hydration of the fused ids through an id→index map in `buscar_texto_hibrido`.
- **`SemanticRouter`** (`src/semantic_router.py`): the keyword router. It yields a location filter only when exactly one of the Japan and Spain keyword groups occurs in the lower-cased query.
- **`Reranker`** (`src/reranker.py`): cross-encoder reranking. Scores are attached by index, then a stable descending sort and a `[:top_k]` cut are applied.
- **`Ranking`**: the stable descending sort that Python's `sorted(..., reverse=True)` performs. It covers:
  - stability, permutation and maximum-first lemmas;
  - the first-occurrence order of dictionary keys.
- **`Orchestrator`** (`src/modelo_base.py`) models the following stages:
  - the security gate;
  - the rewriter input built from the last six turns;
  - routing, dense search, BM25 and fusion cut to 15;
  - the "no information" short cut;
  - the rerank input;
  - image paths checked against an `exists` oracle;
  - context, messages and deduplicated sources.

  Every external service is a field of a `Services` record of functions. Each pipeline method also returns the trace of service calls it made.
- **`Metrics`** (`src/utils/utils.py`): Precision@K, Recall@K, Reciprocal Rank, Average Precision and MAP. Each is an accumulator-loop method proved equal to a recursive definition, and the value ranges are proved about that definition.
- **`TextUtils`** (`src/utils/utils.py`): the lexical normaliser `limpiar_texto_basico` whose output BM25 tokenises, `str.split()`, and `combinar_texto_y_tablas`.
- **`Ingestion`** (`src/01_Ingesta_multimodal_metadata.py`) models:
  - the sliding-window chunker and its reassembly round trip;
  - the image admission filter and page/image loops of `extraer_info_pdf`;
  - per-chunk metadata and chunk ids;
  - the manual metadata table with its derived `pais`.
- **`Evaluation`** (`src/02_evaluar_chunks.py`): hit rate and MRR over a golden set.
- **`Common`**: shared Python primitives. These are `in` on strings, `lower()`, whitespace, `s[:n]` and `s[a:b]`, `sep.join`, first-occurrence deduplication, and `str()` of a natural number.

Scores and ratios are exact `real` numbers. Python's `s[:n]` is modelled with its
negative-index behaviour. A Python exception that ends an operation is `None` of an
`Option`.

Failures the model keeps:

- The fusion inserts the dense ranking first and the BM25 ranking second, so ties among fused scores keep that order.
- An `imagen_path` that is not a string makes `os.path.basename` raise (`src/modelo_base.py:171`). The model keeps that failure as `None`.
- A source name that is a list makes `set()` raise after the LLM call (`src/modelo_base.py:228-231`). The model keeps that failure as `None`.
- `BM25Okapi` raises on a corpus without a single token, because its constructor divides by the number of documents and by the vocabulary size. `buscar_texto_hibrido` returns early on an empty collection (`src/rrf.py:50-51`) but still raises on a non-empty one without tokens. `generar_respuesta` has no guard at all. The model keeps both failures. The `rank_bm25` library is not part of this model; only this one fact about its constructor is.

## Model

| member | source | states |
|---|---|---|
| Rrf.FuseRrf | src/rrf.py:29-42 | The two passes over the dictionary followed by the stable sort return exactly the fused ranking `Fused(sem, bm, k)`. |
| Rrf.Fused | src/rrf.py:29-42 | The value `fusionar_rrf` returns. Its content and order are stated by Rrf.FusedIsRrfRanking and Rrf.FusedTiesKeepFirstSeenOrder. |
| Rrf.RrfScore | src/rrf.py:34-39 | An id's fused score, the sum of its shares in both lists. Its meaning is stated by Rrf.ConsensusOutranksSingle. |
| Rrf.AddRanking | src/rrf.py:34-39 | One pass keeps the dictionary's keys equal to the ids read so far, in first-insertion order. It also keeps each value equal to the sum of `1/(k+p+1)` over the positions read so far that hold that id. |
| Rrf.FusedItems | src/rrf.py:31-39 | The dictionary lists each id of `sem + bm` once, in order of first appearance, and gives each id its RRF score. |
| Rrf.FusedIsRrfRanking | src/rrf.py:31-42 | The fused output holds every id of either list exactly once and nothing else. Each id carries its RRF score, and the output is ordered by non-increasing score. |
| Rrf.FusedEntry | src/rrf.py:34-42 | Each fused entry is an id of one of the two lists, paired with its RRF score. |
| Rrf.FusedCovers | src/rrf.py:31-42 | Every id of either list appears in the fused output. |
| Rrf.ContributionSingle | src/rrf.py:34-35 | An id occurring once, at position `p`, receives exactly `1/(k+p+1)` from that list, so position 0 gives `1/(k+1)`. |
| Rrf.ContributionPositive | src/rrf.py:34-39 | An id occurring in a list receives a positive amount from that list. |
| Rrf.ContributionAbsent | src/rrf.py:34-39 | An id absent from a list receives nothing from it. |
| Rrf.ConsensusOutranksSingle | src/rrf.py:34-39 | An id in both lists scores strictly more than its share from either list alone. An id in one list keeps exactly that list's share, and an id in neither scores 0. |
| Rrf.TermAntitone | src/rrf.py:35 | A later position never receives a larger share. |
| Rrf.OneListEmpty | src/rrf.py:34-42 | With one list empty and the other free of repeats, the fused order is exactly that list's order. |
| Rrf.FusedTiesKeepFirstSeenOrder | src/rrf.py:31-42 | Among ids with equal fused scores, the output keeps dictionary order. That order is first appearance in the semantic list, then in the BM25 list. |
| Rrf.TopIndicesSelect | src/rrf.py:26 | `argsort(-scores)[:top_n]` gives as many distinct corpus indices as the slice allows, by non-increasing score. No index left out scores more than a selected one. |
| Rrf.TopIndicesBest | src/rrf.py:26 | A selected index scores at least as much as any index left out. |
| Rrf.TopIndices | src/rrf.py:26 | `argsort(-scores)[:top_n]` with ties in index order. Stated by Rrf.TopIndicesSelect. |
| Rrf.TokenizeCorpus | src/rrf.py:14 | One token list per document, each `limpiar_texto_basico(doc).split()`, in document order. |
| Rrf.Bm25Builds | src/rrf.py:17 | Whether `BM25Okapi` can be built: some document has a token. Stated by Rrf.Bm25BuildsNonEmpty, Rrf.HybridTextSearch and Orchestrator.FusedCandidatesNonEmpty. |
| Rrf.Bm25Ranking | src/rrf.py:11-27 | The ids of the selected indices. Stated by Rrf.Bm25RankingSelects. |
| Rrf.Bm25BuildsNonEmpty | src/rrf.py:17 | A corpus BM25 can be built on has at least one document, so an empty collection never has one. |
| Rrf.Bm25RankingSelects | src/rrf.py:23-27 | The BM25 ranking has `min(top_n, len(all_ids))` ids, all drawn from `all_ids`, and distinct when the corpus ids are. |
| Rrf.IdToIndex | src/rrf.py:71 | The id map's keys are exactly the corpus ids, each mapped to an index holding it. A repeated id maps to its last index. |
| Rrf.TopFused | src/rrf.py:67 | The ids kept by `[:top_k]` of the fused ranking. Stated by Rrf.TopFusedDistinct and Rrf.TopFusedFromRankings. |
| Rrf.HybridTextSearch | src/rrf.py:44-87 | An empty collection gives empty lists. Otherwise the result exists exactly when BM25 can be built on the documents and every fused id of the top-k cut is in the collection. Each result id is paired with the document and metadata at the index the id map gives it. |
| Rrf.Hydrate | src/rrf.py:71-87 | The hydration loop succeeds exactly when every fused id is a collection id, and then returns the ids with their aligned documents and metadata. A missing id stops it, which models the KeyError. |
| Rrf.HydratedIntro | src/rrf.py:77-81 | A pairing of every fused id through the id map is the hydrated result in the vector store's one-query shape. |
| Rrf.MissingId | src/rrf.py:78 | An id absent from the id map means not every fused id is in the collection. |
| Rrf.HybridTop | src/rrf.py:59-67 | The fused dense and BM25 rankings cut to `top_k`, the ids `buscar_texto_hibrido` hydrates. Stated by Rrf.HybridTopBounds and Rrf.HybridTextSearch. |
| Rrf.HybridTopBounds | src/rrf.py:64-67 | At most `top_k` ids survive the cut. When the dense ranking only holds collection ids, so do they. |
| Rrf.TopFusedDistinct | src/rrf.py:67 | The ids kept by `[:top_k]` are distinct, and there are at most `top_k` of them. |
| Rrf.TopFusedFromRankings | src/rrf.py:67 | Every id kept by the cut comes from one of the two rankings. |
| SemanticRouter.DetectFilters | src/semantic_router.py:14-42 | A filter is returned exactly when one keyword group, but not both, occurs in the lower-cased query. A filter has exactly the key `ubicacion`, never an empty dictionary. |
| SemanticRouter.JapanQueryFiltersJapan | src/semantic_router.py:22-28 | A Japan keyword written in any case, with no Spain keyword, yields `{"ubicacion": {"$in": ["Tokio, Japón", "Japón"]}}`. |
| SemanticRouter.SpainQueryFiltersSpain | src/semantic_router.py:22-33 | A Spain keyword written in any case, with no Japan keyword, yields `{"ubicacion": "España"}`. |
| SemanticRouter.AmbiguousQueryHasNoFilter | src/semantic_router.py:35-42 | A query matching both groups or neither yields no filter. |
| SemanticRouter.AnyIn | src/semantic_router.py:22-23 | `any(keyword in text for keyword in keywords)`. Stated by SemanticRouter.KeywordDetected and SemanticRouter.DetectFilters. |
| SemanticRouter.KeywordDetected | src/semantic_router.py:18-23 | Matching ignores case: a piece of the query whose lower-case form is a keyword is detected. |
| SemanticRouter.DetectFiltersIgnoresCase | src/semantic_router.py:18 | Lower-casing the query beforehand does not change the result. |
| SemanticRouter.JapanKeywords | src/semantic_router.py:10 | The Japan keyword group. Stated by SemanticRouter.KeywordsAreLowerCase and SemanticRouter.JapanQueryFiltersJapan. |
| SemanticRouter.SpainKeywords | src/semantic_router.py:11 | The Spain keyword group. Stated by SemanticRouter.KeywordsAreLowerCase and SemanticRouter.SpainQueryFiltersSpain. |
| SemanticRouter.KeywordsAreLowerCase | src/semantic_router.py:9-12 | Every keyword is its own lower-case form. |
| Reranker.Rerank | src/reranker.py:26-64 | No candidates gives `[]` without scoring, so the cross-encoder is only required to answer for a non-empty list. Otherwise the result is the candidates paired with the cross-encoder score at their own index, stably sorted by descending score and cut to `top_k`. |
| Reranker.Reranked | src/reranker.py:50-64 | The reranked list of the scored candidates. Stated by Reranker.RerankedShape, Reranker.RerankedFromInput and Reranker.RerankedTiesKeepInputOrder. |
| Reranker.SentencePairs | src/reranker.py:43-44 | One pair `(query, texto)` per candidate, in candidate order. |
| Reranker.Scored | src/reranker.py:50-55 | Each candidate is paired with the score at its own index. |
| Reranker.RerankedShape | src/reranker.py:58-64 | The output has `min(top_k, len(docs))` entries for `top_k >= 0`, ordered by non-increasing score. Its first entry carries the highest score of all candidates. |
| Reranker.RerankedFromInput | src/reranker.py:50-58 | Each output entry pairs an input candidate with that candidate's own score, and no input position is used twice. |
| Reranker.RerankedTiesKeepInputOrder | src/reranker.py:58-64 | Entries with equal scores keep input order: for each score, they are the first of the input entries with that score, in input order. |
| Ranking.SortDesc | src/reranker.py:58 | The sort returns a permutation of its input, ordered by non-increasing score. |
| Ranking.SortDescStable | src/rrf.py:42 | For every score value, the entries with that score keep their input order. |
| Ranking.SortDescFirstIsMax | src/reranker.py:61 | The first sorted entry carries the maximum score of the input. |
| Ranking.SortDescOfSorted | src/rrf.py:42 | Input already in non-increasing order is returned unchanged. |
| Ranking.SortDescKeysDistinct | src/rrf.py:42 | Sorting keeps payloads distinct. |
| Orchestrator.Safe | src/modelo_base.py:31-39 | No forbidden phrase occurs in the lower-cased query. Stated by Orchestrator.ValidateSecurity, Orchestrator.ForbiddenInAnyCase and Orchestrator.SafeIgnoresCase. |
| Orchestrator.ValidateSecurity | src/modelo_base.py:29-39 | The gate fails exactly when one of the six phrases occurs in the lower-cased query. |
| Orchestrator.ForbiddenInAnyCase | src/modelo_base.py:31-37 | A forbidden phrase written in any mix of cases is refused. |
| Orchestrator.SafeIgnoresCase | src/modelo_base.py:35 | Lower-casing the query beforehand does not change the verdict. |
| Orchestrator.LastTurns | src/modelo_base.py:88 | `historial[-6:]` holds the last `min(6, len)` turns. |
| Orchestrator.RewriterInput | src/modelo_base.py:83-92 | The text the rewriter receives. Stated by Orchestrator.RewriterInputUsesLastSix. |
| Orchestrator.RewriterInputUsesLastSix | src/modelo_base.py:83-92 | Without history the rewriter gets the query unchanged. With history only the last six turns matter, and the text ends with the query. |
| Orchestrator.BuildRewriterInput | src/modelo_base.py:83-92 | The rewriter input is the query, or, with history, the template over the last six contents joined by spaces. |
| Orchestrator.HistoryOf | src/modelo_base.py:77-78 | `historial=None` becomes the empty history. Stated by Orchestrator.GenerateAnswer, which rewrites, retrieves and answers with that history. |
| Orchestrator.OptimizedQuery | src/modelo_base.py:96 | The rewriter's answer to the rewriter input. Stated by Orchestrator.Search and Orchestrator.GenerateAnswer, which run every text step on it. |
| Orchestrator.FirstOrEmpty | src/modelo_base.py:115 | The first dense id list, or the empty list when there is none. Stated by Orchestrator.FusedCandidatesBounds and Orchestrator.GuardedCandidatesEmptyIff. |
| Orchestrator.CorpusIndexable | src/modelo_base.py:119-125 | BM25 can be built on the whole text collection. Stated by Orchestrator.RetrieveFused, Orchestrator.Search and Orchestrator.FusedCandidatesNonEmpty. |
| Orchestrator.RetrieveFused | src/modelo_base.py:100-129 | Routing, dense search and BM25 all run on the rewritten query. When BM25 can be built on the collection, the first 15 fused ids are returned, after the filtered dense query for 20 results and BM25 scoring of the query's tokens. On a collection without a single token, an empty one included, it fails after the dense query, as `BM25Okapi` raises. |
| Orchestrator.FusedCandidatesBounds | src/modelo_base.py:128-129 | At most 15 distinct ids go on to reranking, each from the dense ranking or the collection. |
| Orchestrator.FusedCandidates | src/modelo_base.py:104-129 | The fused top 15 of the dense and BM25 rankings. Stated by Orchestrator.FusedCandidatesBounds and Orchestrator.FusedCandidatesNonEmpty. |
| Orchestrator.FusedCandidatesNonEmpty | src/modelo_base.py:119-138 | Whenever BM25 can be built on the collection, fusion yields at least one id. The "no information" answer therefore needs a collection on which `BM25Okapi` has already raised. |
| Orchestrator.GuardedCandidatesEmptyIff | src/modelo_base.py:119-138 | With BM25 skipped when it cannot be built, as `src/rrf.py:50-51` does for an empty collection, fusion yields nothing exactly when BM25 cannot be built and the dense search found nothing. |
| Orchestrator.MetaOrEmpty | src/modelo_base.py:149 | Missing or empty metadata becomes `{}`, and any other metadata is kept. |
| Orchestrator.RerankInput | src/modelo_base.py:146-155 | The candidates built from the fetched entries. Stated by Orchestrator.RerankInputAligned and Orchestrator.BuildRerankInput. |
| Orchestrator.BestChunks | src/modelo_base.py:141-158 | The reranked chunks of the fetched candidates. Stated by Orchestrator.Respond and by Reranker.RerankedShape and Reranker.RerankedFromInput. |
| Orchestrator.BuildRerankInput | src/modelo_base.py:146-155 | The rerank input has one candidate per fetched entry, in order. |
| Orchestrator.RerankInputAligned | src/modelo_base.py:146-155 | Candidate `i` has the fetched id, document and metadata at index `i`, with missing metadata as `{}`. |
| Orchestrator.Basename | src/modelo_base.py:171 | `basename` is the part after the last `/`, and contains no `/`. |
| Orchestrator.RebuiltPath | src/modelo_base.py:172 | The rebuilt path lies under `BASE_DIR/data/imagenes_extraidas`. |
| Orchestrator.PathStep | src/modelo_base.py:169-177 | One image result fails exactly when its `imagen_path` is not a string. |
| Orchestrator.PathStepMember | src/modelo_base.py:169-177 | One result contributes at most its own rebuilt path, and only when that file exists. |
| Orchestrator.CheckImage | src/modelo_base.py:169-177 | The loop body computes the step for one result. |
| Orchestrator.ImagePaths | src/modelo_base.py:166-177 | The checked image paths of the metadata entries, in order, or a failure. Stated by Orchestrator.ImagePathsSelect, Orchestrator.ImagePathsSource, Orchestrator.ImagePathsKeep, Orchestrator.ImagePathsChecked and Orchestrator.ImagePathsFailure. |
| Orchestrator.ImageStep | src/modelo_base.py:166-177 | The image paths for the results of the image query, and the empty list when the query returned no ids. Stated by Orchestrator.CollectImagePaths and Orchestrator.Respond. |
| Orchestrator.CollectImagePaths | src/modelo_base.py:166-177 | The image loop returns the checked paths of the results in retrieval order, or fails. |
| Orchestrator.ImagePathsSelect | src/modelo_base.py:166-177 | The image list holds exactly the rebuilt paths whose file exists, with at most one per result. |
| Orchestrator.ImagePathsSource | src/modelo_base.py:166-177 | Every listed path comes from some result. |
| Orchestrator.ImagePathsKeep | src/modelo_base.py:166-177 | Every result's existing rebuilt path is listed. |
| Orchestrator.ImagePathsChecked | src/modelo_base.py:172-175 | No listed path fails `exists()`, and every listed path lies under the image directory. |
| Orchestrator.ImagePathsFailure | src/modelo_base.py:168-171 | The image step fails exactly when some result has a non-string `imagen_path`. |
| Orchestrator.SourcesExactlyOnce | src/modelo_base.py:228-231 | Building `fuentes` fails exactly when some name is a list, which `set` cannot hash. Otherwise it lists each reranked chunk's `nombre_archivo` (default `Desconocido`) exactly once and nothing else. |
| Orchestrator.SourceName | src/modelo_base.py:229 | A chunk's `nombre_archivo`, with `Desconocido` by default. |
| Orchestrator.Sources | src/modelo_base.py:228-231 | `list(set(names))`. Stated by Orchestrator.SourcesExactlyOnce. |
| Orchestrator.MetaText | src/modelo_base.py:184 | The f-string text of a metadata value: a string as is, an integer in decimal, a list in Python's list form, `None` for null. |
| Orchestrator.ContextEntry | src/modelo_base.py:184 | The header with source name and formatted score, then the chunk text. |
| Orchestrator.ContextText | src/modelo_base.py:183-186 | The context entries of the reranked chunks, in order, separated by blank lines. |
| Orchestrator.Messages | src/modelo_base.py:207-217 | The system prompt, then the history, then the user question with the context. |
| Orchestrator.Search | src/modelo_base.py:83-129 | Returns the rewritten query and its fused top 15, or fails when BM25 cannot be built on the collection. The trace is the rewriter call followed by the retrieval calls. |
| Orchestrator.Respond | src/modelo_base.py:140-238 | The fetch and rerank on the rewritten query, then the image search on the original query. A bad image path fails before the LLM call. Otherwise the LLM is called, and the answer carries sources, images and context, unless a source name is a list, which fails after that call. |
| Orchestrator.GenerateAnswer | src/modelo_base.py:59-238 | An unsafe query gets the fixed refusal with no service call. A collection BM25 cannot be built on fails after the rewriter and dense calls. An empty fused list gets the "no information" answer with no fetch, rerank, image search or LLM call. Otherwise it returns the answer built from the reranked chunks, or fails on a bad image path or a list-valued source name. |
| Metrics.PrecisionAtK | src/utils/utils.py:489-534 | The counting loop returns the share of relevant ids in `resultados[:k]`, and 0 when that slice is empty. |
| Metrics.Precision | src/utils/utils.py:508-534 | The precision@k value. Stated by Metrics.PrecisionBounds. |
| Metrics.PrecisionBounds | src/utils/utils.py:508-534 | Precision lies in [0, 1]. It is 1 exactly when the slice is non-empty and all relevant. |
| Metrics.CountBounds | src/utils/utils.py:517-520 | The count of relevant positions is at most the length, and equal to it exactly when every id is relevant. |
| Metrics.RecallAtK | src/utils/utils.py:537-581 | The loop over the relevant set, in any order, returns `|relevantes ∩ set(resultados[:k])| / |relevantes|`, and 0 for an empty relevant set. |
| Metrics.Recall | src/utils/utils.py:554-581 | The recall@k value. Stated by Metrics.RecallBounds and Metrics.RecallMonotone. |
| Metrics.RecallStep | src/utils/utils.py:567-570 | One iteration adds one found id exactly when that relevant id is in the top-k set. |
| Metrics.RecallBounds | src/utils/utils.py:554-581 | Recall lies in [0, 1]. It is 1 exactly when every relevant id is found, for a non-empty relevant set. |
| Metrics.RecallMonotone | src/utils/utils.py:558 | Recall never drops as a non-negative `k` grows. |
| Metrics.FirstHit | src/utils/utils.py:614-629 | The first relevant position, if any: relevant, with nothing relevant before it. |
| Metrics.ReciprocalRank | src/utils/utils.py:589-632 | The loop returns `1/p` for the 1-based position `p` of the first relevant id, and 0 when there is none. |
| Metrics.RR | src/utils/utils.py:614-632 | The reciprocal-rank value. Stated by Metrics.RRBounds. |
| Metrics.FirstHitUnique | src/utils/utils.py:614-629 | A relevant position with nothing relevant before it is the first hit. |
| Metrics.RRBounds | src/utils/utils.py:589-632 | RR lies in [0, 1]. It is 1 exactly when the first id is relevant, and positive exactly when some id is. |
| Metrics.AveragePrecision | src/utils/utils.py:639-686 | The loop returns the sum of precision@p over the relevant positions divided by `|relevantes|`, and 0 for an empty relevant set. |
| Metrics.AP | src/utils/utils.py:660-686 | The average-precision value. Stated by Metrics.APBounds. |
| Metrics.RepeatedIdBreaksAPBound | src/utils/utils.py:657-686 | The ranking `["a", "a"]` against `{"a"}` has average precision 2, outside the documented range [0, 1]. |
| Metrics.APFirstSeenBounds | src/utils/utils.py:657-686 | Counting a repeated id once, at its first position, keeps average precision in [0, 1] for every ranking, and equals `AP` on rankings without repeats. |
| Metrics.PrecisionSumBounds | src/utils/utils.py:670-679 | The precision sum is at most the number of relevant positions. |
| Metrics.CountDistinct | src/utils/utils.py:670-673 | Without repeated ids, the relevant count is the number of distinct relevant ids found, so at most `|relevantes|`. |
| Metrics.APBounds | src/utils/utils.py:639-686 | AP lies in [0, 1] when the ranking repeats no id. |
| Metrics.MeanAveragePrecision | src/utils/utils.py:689-719 | The loop returns the mean of the per-query APs, and 0 for an empty dictionary. |
| Metrics.MAP | src/utils/utils.py:704-719 | The MAP value. Stated by Metrics.MAPBounds. |
| Metrics.MAPBounds | src/utils/utils.py:704-717 | MAP lies in [0, 1] when no ranking repeats an id. |
| Metrics.APSumBounds | src/utils/utils.py:709-714 | The sum of the APs lies between 0 and the number of queries. |
| Evaluation.EvaluateRetrieval | src/02_evaluar_chunks.py:141-172 | The loop returns the hit rate and the MRR of the golden set as their recursive definitions give them. |
| Evaluation.HitRate | src/02_evaluar_chunks.py:161-170 | The hit rate. Stated by Evaluation.EvaluationBounds. |
| Evaluation.Mrr | src/02_evaluar_chunks.py:164-171 | The MRR. Stated by Evaluation.EvaluationBounds and Evaluation.HitIffFirstRank. |
| Evaluation.ItemReciprocalRank | src/02_evaluar_chunks.py:164-167 | For a hit, the inner loop adds `1/(r+1)` for the smallest rank `r` holding a target id, and that value is positive. |
| Evaluation.IsHit | src/02_evaluar_chunks.py:161 | `any(tid in recuperados for tid in target_ids)`. Stated by Evaluation.HitIffFirstRank. |
| Evaluation.ItemRR | src/02_evaluar_chunks.py:164-167 | What one item adds to the MRR sum. Stated by Evaluation.HitIffFirstRank and Evaluation.ItemRRBounds. |
| Evaluation.Hits | src/02_evaluar_chunks.py:161-163 | The number of hits among the items. Stated by Evaluation.SumBounds and Evaluation.EvaluationBounds. |
| Evaluation.RRSum | src/02_evaluar_chunks.py:164-167 | The MRR sum over the items. Stated by Evaluation.SumBounds and Evaluation.EvaluationBounds. |
| Evaluation.HitIffFirstRank | src/02_evaluar_chunks.py:161-167 | An item is a hit exactly when some target id is retrieved. A hit adds `1/(r+1)` for the first target rank `r`, and a miss adds nothing. |
| Evaluation.ItemRRBounds | src/02_evaluar_chunks.py:162-167 | One item adds between 0 and 1 to the MRR sum, and 0 for a miss. |
| Evaluation.SumBounds | src/02_evaluar_chunks.py:148-167 | The MRR sum lies between 0 and the hit count, which is at most the number of items. |
| Evaluation.EvaluationBounds | src/02_evaluar_chunks.py:161-171 | `0 <= mrr <= hit_rate <= 1`, and both are 0 for an empty golden set. |
| TextUtils.ReplaceRuns | src/utils/utils.py:127-139 | After a run substitution, a character of the class survives only as a space. Which characters survive, and how each run is replaced, is stated by TextUtils.ReplaceRunsOutside and TextUtils.ReplaceRunsRun. |
| TextUtils.ReplaceRunsOutside | src/utils/utils.py:127-139 | Every character outside the class, other than the space, survives the substitution: all of them, in their order. |
| TextUtils.ReplaceRunsRun | src/utils/utils.py:127-139 | A maximal run of the class, bounded by characters outside it or by the ends of the text, becomes exactly one space. The text on either side is substituted on its own. |
| TextUtils.ReplaceRunsBoundary | src/utils/utils.py:127-139 | Where a text that ends outside the class meets one that starts inside it, each part is substituted separately and the results are concatenated. |
| TextUtils.CleanBasic | src/utils/utils.py:99-147 | `limpiar_texto_basico` with its flags, stage by stage in the code's order. Stated by TextUtils.CleanBasicNormalForm, TextUtils.CleanBasicNoDigits and TextUtils.CleanDefaultIdempotent. |
| TextUtils.ReplaceRunsKeeps | src/utils/utils.py:127-139 | The substitution introduces no character but the space. |
| TextUtils.ReplaceRunsNoDoubleSpace | src/utils/utils.py:139 | Replacing whitespace runs leaves no two spaces in a row. |
| TextUtils.ReplaceSymbols | src/utils/utils.py:132-134 | Every character outside `[a-záéíóúñü\s0-9]` becomes a space, one for one, and the rest are kept. |
| TextUtils.Strip | src/utils/utils.py:139 | `strip()` returns a slice of the text that holds all of its non-whitespace characters, in order. The slice has no whitespace at either end and adds no double space. |
| TextUtils.Collapse | src/utils/utils.py:139 | Collapsing and stripping leaves no whitespace at either end, the plain space as the only whitespace, and no double space. The non-whitespace characters are those of the input, in order. |
| TextUtils.CollapseKeeps | src/utils/utils.py:139 | Collapsing introduces no character but the space. |
| TextUtils.StripAccents | src/utils/utils.py:144-145 | The combining marks U+0300..U+036F are dropped and every other character becomes its NFD base letter, in order. Text without combining marks keeps its length. |
| TextUtils.CleanBasicNormalForm | src/utils/utils.py:132-145 | With the symbol filter on, the output is words over a-z and 0-9 separated by single spaces, with none at either end. |
| TextUtils.CleanBasicNoDigits | src/utils/utils.py:127-145 | With the digit filter on, no digit survives. |
| TextUtils.StripAccentsPlain | src/utils/utils.py:144-145 | Removing accents from kept, collapsed text yields plain characters with no edge or double spaces. |
| TextUtils.ReplaceRunsFixed | src/utils/utils.py:139 | Text whose class characters are lone spaces is unchanged by the run substitution. |
| TextUtils.ReplaceRunsTrailingRun | src/utils/utils.py:139 | Such text followed by a run becomes the text plus one space. |
| TextUtils.LowerPlainFixed | src/utils/utils.py:123-124 | Plain text is already lower-case. |
| TextUtils.SymbolsPlainFixed | src/utils/utils.py:132-134 | Plain text holds no symbol to replace. |
| TextUtils.CollapseNormalFixed | src/utils/utils.py:139 | Plain text with single inner spaces and none at the ends has nothing to collapse. |
| TextUtils.StripAccentsAscii | src/utils/utils.py:144-145 | Text below U+00C0 has no accents to remove. |
| TextUtils.AccentsPlainFixed | src/utils/utils.py:144-145 | Plain text has no accents to remove. |
| TextUtils.NormalFormIsFixed | src/utils/utils.py:123-145 | Text in normal form passes through the default normaliser unchanged. |
| TextUtils.CleanDefaultIdempotent | src/utils/utils.py:99-147 | Normalising twice equals normalising once. |
| TextUtils.CollapseSpacedWords | src/utils/utils.py:139 | One space, single-spaced printable words and two trailing spaces collapse to the words alone. |
| TextUtils.ExampleLowered | src/utils/utils.py:123-124 | `"¡Python 3.12 es GENIAL! ".lower()` is `"¡python 3.12 es genial! "`. |
| TextUtils.ExampleSymbols | src/utils/utils.py:132-134 | The symbol filter turns that text into `" python 3 12 es genial  "`. |
| TextUtils.ExampleCollapsed | src/utils/utils.py:139 | Collapsing gives `"python 3 12 es genial"`. |
| TextUtils.ExampleUnaccented | src/utils/utils.py:144-145 | Accent removal leaves it unchanged. |
| TextUtils.DocumentedExample | src/utils/utils.py:119-121 | `limpiar_texto_basico("¡Python 3.12 es GENIAL! ") == "python 3 12 es genial"`. |
| TextUtils.CombineTextAndTables | src/utils/utils.py:934-958 | Without tables text, the result is `texto` unchanged. Otherwise it is `texto`, the fixed header and the tables text, in that order. |
| TextUtils.Split | src/rrf.py:14-20 | `str.split()`. Stated by TextUtils.SplitTokens, TextUtils.SplitEmptyIff and TextUtils.SplitKeepsText. |
| TextUtils.SplitTokens | src/rrf.py:14-20 | Every piece of `str.split()` is a token: non-empty and without whitespace. |
| TextUtils.SplitEmptyIff | src/rrf.py:14-20 | `split()` yields no piece exactly when every character of the text is whitespace, the empty text included. |
| TextUtils.SplitKeepsText | src/rrf.py:14-20 | The pieces, concatenated, are exactly the non-whitespace characters of the text, in order. |
| TextUtils.Tokens | src/rrf.py:14-20 | `limpiar_texto_basico(t).split()`, the tokens BM25 sees for one text. Each is a token, by TextUtils.SplitTokens. |
| Ingestion.SplitIntoChunks | src/01_Ingesta_multimodal_metadata.py:217-231 | The empty text gives `[]` for any sizes. Otherwise the loop returns the windows `texto[Start(i):Start(i)+tam_chunk]` while the start is inside the text. It requires `tam_chunk > solapamiento` only for a non-empty text, where the loop otherwise does not end. |
| Ingestion.Chunks | src/01_Ingesta_multimodal_metadata.py:217-231 | The chunk list. Stated by Ingestion.ChunkShape, Ingestion.ChunkCountIsCeiling and Ingestion.ChunksReassemble. |
| Ingestion.StartIsMultiple | src/01_Ingesta_multimodal_metadata.py:229 | Window `i` starts at `i * (tam_chunk - solapamiento)`. |
| Ingestion.ChunkShape | src/01_Ingesta_multimodal_metadata.py:225-229 | Chunk `i` is the text from its start, inside the text, up to `tam_chunk` characters further. It is non-empty and at most `tam_chunk` long. |
| Ingestion.ChunkStartInside | src/01_Ingesta_multimodal_metadata.py:225 | Every opened window starts inside the text. |
| Ingestion.ChunkCountCovers | src/01_Ingesta_multimodal_metadata.py:225-229 | The start after the last window lies at or past the end of the text. |
| Ingestion.ChunkCountIsCeiling | src/01_Ingesta_multimodal_metadata.py:225-229 | The number of chunks is `ceil(len(texto) / step)`. |
| Ingestion.ChunksReassemble | src/01_Ingesta_multimodal_metadata.py:225-229 | For `0 <= solapamiento < tam_chunk`, the first chunk followed by every later `chunk[solapamiento:]` rebuilds the text exactly. |
| Ingestion.ChunksAreWindows | src/01_Ingesta_multimodal_metadata.py:225-229 | Every prefix of the chunks is a run of overlapping windows of the text. |
| Ingestion.ReassembleWindows | src/01_Ingesta_multimodal_metadata.py:225-229 | Reassembling a run of windows gives the text up to the end of the last window. |
| Ingestion.ReassembleNext | src/01_Ingesta_multimodal_metadata.py:226-229 | One more window extends the reassembled text to that window's end. |
| Ingestion.AspectRatio | src/01_Ingesta_multimodal_metadata.py:176 | The ratio is the longer side over the shorter one. It is undefined exactly when a side is 0, where the division raises. |
| Ingestion.RatioWithinBound | src/01_Ingesta_multimodal_metadata.py:186 | `ratio <= 3.5` is the same as `2 * long <= 7 * short`. |
| Ingestion.AdmissionIff | src/01_Ingesta_multimodal_metadata.py:169-187 | An image is kept exactly when all of these hold: it was extracted, it is at least 200x200, it has at least 150000 pixels and 6144 bytes, and its aspect ratio is at most 3.5. |
| Ingestion.Admission | src/01_Ingesta_multimodal_metadata.py:169-187 | The verdict of the guards for one image. Stated by Ingestion.AdmissionIff. |
| Ingestion.PagesText | src/01_Ingesta_multimodal_metadata.py:160-163 | The full text: each page's text behind its numbered header, counting from 1. |
| Ingestion.ImageName | src/01_Ingesta_multimodal_metadata.py:190 | The saved image's name starts with the PDF's name and ends with a dot and the image's extension. |
| Ingestion.MakeRecord | src/01_Ingesta_multimodal_metadata.py:190-201 | A kept image's record carries its page number and image index. |
| Ingestion.ExtractPdfInfo | src/01_Ingesta_multimodal_metadata.py:146-211 | The page loop and the image loop with its `continue` guards return the numbered page text and the records of the admitted images. |
| Ingestion.PageImages | src/01_Ingesta_multimodal_metadata.py:166-201 | The records of one page's admitted images. Stated by Ingestion.PageImagesMember, Ingestion.PageImagesSource, Ingestion.PageImagesKeep and Ingestion.PageImagesOrdered. |
| Ingestion.KeptImages | src/01_Ingesta_multimodal_metadata.py:160-201 | The records of every page's admitted images, page by page. Stated by Ingestion.KeptImagesOrdered, Ingestion.KeptImagesMember and Ingestion.ExtractPdfInfo. |
| Ingestion.PageImagesMember | src/01_Ingesta_multimodal_metadata.py:166-201 | A page keeps exactly the records of its admitted images. |
| Ingestion.PageImagesSource | src/01_Ingesta_multimodal_metadata.py:166-201 | Every record of a page comes from an admitted image of that page. |
| Ingestion.PageImagesKeep | src/01_Ingesta_multimodal_metadata.py:166-201 | Every admitted image of a page has its record. |
| Ingestion.PageImagesOrdered | src/01_Ingesta_multimodal_metadata.py:166-201 | A page's records carry its page number and strictly increasing image indices. |
| Ingestion.KeptImagesOrdered | src/01_Ingesta_multimodal_metadata.py:160-201 | The records are ordered by page and then by image index, so no image is listed twice. All page numbers lie in `1..pages`. |
| Ingestion.KeptImagesMember | src/01_Ingesta_multimodal_metadata.py:160-201 | A record is kept exactly when it stands for an admitted image of some page. |
| Ingestion.Flatten | src/01_Ingesta_multimodal_metadata.py:270-272 | A list value becomes a string, and any other value is kept. |
| Ingestion.BuildChunkMetadata | src/01_Ingesta_multimodal_metadata.py:267-279 | The copy-and-update loop produces the chunk metadata, and the base is left unchanged. |
| Ingestion.ChunkMetadataShape | src/01_Ingesta_multimodal_metadata.py:267-278 | The keys are the base keys plus `tipo`, `chunk_id` and `origen_pdf`. Those three fields hold the chunk's values. Every other key keeps its base value with lists joined by `", "`, and no value is a list. |
| Ingestion.ChunkMetadata | src/01_Ingesta_multimodal_metadata.py:267-278 | The metadata of one chunk. Stated by Ingestion.ChunkMetadataShape. |
| Ingestion.ChunkId | src/01_Ingesta_multimodal_metadata.py:263 | `<pdf>_chunk_<i>`. Stated by Ingestion.ChunkIdsDistinct. |
| Ingestion.ChunkIdsDistinct | src/01_Ingesta_multimodal_metadata.py:263 | Different chunks of one PDF get different ids. |
| Ingestion.IndexTextChunks | src/01_Ingesta_multimodal_metadata.py:250-286 | The batch holds the default-window chunks with aligned ids `<pdf>_chunk_<i>` and chunk metadata. |
| Ingestion.PaisIff | src/01_Ingesta_multimodal_metadata.py:73 | `pais` is `"Japón"` exactly when `ubicacion` contains `"Japón"`: as a substring of a string location, as an element of a list location. It is `"España"` otherwise, including when `ubicacion` is missing. An integer or null location raises. |
| Ingestion.Pais | src/01_Ingesta_multimodal_metadata.py:73 | The derived country. Stated by Ingestion.PaisIff. |
| Ingestion.ItemKey | src/01_Ingesta_multimodal_metadata.py:64-66 | An item's `nombre_archivo`, or a failure when it is missing or is a list. |
| Ingestion.ManualEntry | src/01_Ingesta_multimodal_metadata.py:66-75 | The six fields kept for one item, with `None` for a missing title, location or category, `[]` for missing keywords, the derived `pais` and `dominio` set to `turismo`. |
| Ingestion.ManualMetadata | src/01_Ingesta_multimodal_metadata.py:61-75 | The table built from the items. Stated by Ingestion.ManualMetadataKeys, Ingestion.ManualMetadataLastWins and Ingestion.ManualMetadataLoads. |
| Ingestion.LoadManualMetadata | src/01_Ingesta_multimodal_metadata.py:54-78 | The loop builds the table keyed by `nombre_archivo`, or fails like the source on a missing or unhashable name or an unusable location. |
| Ingestion.LoadFailureSticks | src/01_Ingesta_multimodal_metadata.py:63-75 | A failure on any item fails the whole load. |
| Ingestion.Loadable | src/01_Ingesta_multimodal_metadata.py:63-75 | The loop gets past an item: its `nombre_archivo` is present and can be a dictionary key (it is not a list), and its location is missing, a string or a list, so `pais` can be derived. Stated by Ingestion.ManualMetadataLoads and Ingestion.LoadFailureSticks. |
| Ingestion.ManualMetadataLoads | src/01_Ingesta_multimodal_metadata.py:63-75 | The table loads exactly when every item does. |
| Ingestion.ManualMetadataKeys | src/01_Ingesta_multimodal_metadata.py:63-66 | The table's keys are exactly the items' names. |
| Ingestion.ManualMetadataLastWins | src/01_Ingesta_multimodal_metadata.py:63-75 | A name maps to the entry of the last item with that name. |

## Left out

- Embeddings, the ChromaDB `query`/`get`/`add` calls, `BM25Okapi` scoring, `CrossEncoder.predict`, the LLM rewriter and the LLM answer are all external to the model. Each is an uninterpreted function parameter, and only the shape of its results is assumed (aligned lists, one score per input). Of the `rank_bm25` library, only the constructor's failure on a corpus without tokens is modelled.
- Floating point: RRF terms, metric ratios and the aspect ratio are exact reals. No claim is made about IEEE rounding or float ties.
- `f"{score:.2f}"` is the parameter `formatScore`, and the system prompt text is the parameter `systemPrompt`.
- Rrf.TopIndices: numpy's `argsort` leaves the order of equal scores unspecified. The model fixes the stable order, which is one of the orders numpy may produce.
- Orchestrator.Sources: `list(set(...))` has unspecified order. The model uses the order of first occurrence.
- Rrf.FuseRrf: `k` is a natural number. A negative `k`, which can make `k + pos + 1` zero and raise, is not modelled.
- Metrics.RecallMonotone: stated only for `0 <= k1 <= k2`. Python's `s[:-1]` is longer than `s[:0]`, so recall is not monotone across zero.
- Metrics.MeanAveragePrecision: every query id must be a key of the relevant-sets dictionary, because the source raises KeyError otherwise. The results dictionary is its list of items, so distinct keys are not enforced.
- Metrics.APBounds: the [0, 1] bound is proved only for rankings without repeated ids. With a repeated relevant id the code's AP can exceed 1 (see "## Findings").
- Metrics.MAPBounds: the [0, 1] bound likewise needs every query's ranking to be free of repeated ids.
- Common.Lower: `lower()` is modelled over ASCII and the Latin-1 capitals only. `TextUtils.StripAccents` decomposes Latin-1 letters only and treats U+0300..U+036F as the combining marks.
- TextUtils.ReplaceRuns: `\d` is taken as the ASCII digits. Python's `re` also matches other Unicode decimal digits.
- Ingestion.ExtractPdfInfo: opening the PDF and writing image files are left out. An image is its extension, dimensions and byte length, and its path is the directory and name joined by `/`.
- Ingestion.IndexTextChunks: embedding the chunks and `coleccion.add` are left out.
- Ingestion.ItemKey: a JSON object as a name (also unhashable) is outside the metadata value type. Reading the JSON file is left out.
- Orchestrator.RebuiltPath: the path is `baseDir + "/data/..."` even when `BASE_DIR` is `/`. There pathlib gives `/data/...` where the model gives `//data/...`.
- Orchestrator.MetaText: a list value is rendered as `['a', 'b']` without Python's escaping of quotes inside items.
- Orchestrator.Message: history turns always carry a `content`. A turn without one, which raises in the source, is not representable.
- The rewriter's fallback to the original query on error lives in `src/query_rewriting.py`, which is not part of this model.
- Logging, configuration, module-level model loading, the HTTP and UI layers, the golden-set generation scripts and the LLM judges are left out.

## Findings

| source | as written | input that shows it | evidently intended | confidence | as-written member | corrected member |
|---|---|---|---|---|---|---|
| src/utils/utils.py:657-686 | Every position holding a relevant id adds its precision, repeats included, and the sum is divided by the number of relevant ids. | `average_precision(["a", "a"], {"a"})` is 2.0. | The documented range [0, 1], with a repeated id counted once. | not executed | Metrics.RepeatedIdBreaksAPBound | Metrics.APFirstSeenBounds |
| src/modelo_base.py:119-138 | BM25 is built on the whole collection without a guard, and the "no information" fallback follows fusion. | An empty text collection: `BM25Okapi` raises ZeroDivisionError before fusion, so the fallback is never returned. | The fallback answer for an empty collection, with BM25 skipped as `src/rrf.py:50-51` does. | not executed; rests on the constructor of `rank_bm25`, which is not part of this model | Orchestrator.FusedCandidatesNonEmpty | Orchestrator.GuardedCandidatesEmptyIff |
