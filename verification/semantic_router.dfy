/** The metadata router: a fixed keyword table decides whether a query is
    about Japan or about Spain, and yields a location filter for the vector
    store only when exactly one of the two is mentioned
    (`src/semantic_router.py`). */
module SemanticRouter {
  import opened Common

  /** The keyword table `reglas_ubicacion`, set once and never changed. */
  const JapanKeywords: seq<string> :=
    ["japón", "japon", "tokio", "tokyo", "akihabara", "shibuya", "sushi", "ramen"]
  const SpainKeywords: seq<string> :=
    ["españa", "spain", "madrid", "barcelona", "tapas", "paella", "rural"]

  const LocationKey: string := "ubicacion"

  /** A metadata condition: membership in a list (`{"$in": [...]}`) or
      equality with a value. */
  datatype FilterValue = InSet(values: seq<string>) | Equals(value: string)

  type Filter = map<string, FilterValue>

  const JapanFilter: Filter := map[LocationKey := InSet(["Tokio, Japón", "Japón"])]
  const SpainFilter: Filter := map[LocationKey := Equals("España")]

  /** `any(keyword in text for keyword in keywords)`. */
  predicate AnyIn(keywords: seq<string>, text: string)
  {
    exists i :: 0 <= i < |keywords| && IsSubstring(keywords[i], text)
  }

  /** `detectar_filtros`: a filter on the location when the lower-cased
      query mentions Japan or Spain but not both, and no filter otherwise
      (the empty dictionary is returned as None). */
  function DetectFilters(query: string): (r: Option<Filter>)
    ensures r.Some? ==> r.value.Keys == {LocationKey}
    ensures r.Some? <==> AnyIn(JapanKeywords, Lower(query)) != AnyIn(SpainKeywords, Lower(query))
  {
    var queryLower := Lower(query);
    var isJapan := AnyIn(JapanKeywords, queryLower);
    var isSpain := AnyIn(SpainKeywords, queryLower);
    if isJapan && !isSpain then Some(JapanFilter)
    else if isSpain && !isJapan then Some(SpainFilter)
    else None
  }

  /** A Japan keyword, written in any case, with no Spain keyword present
      selects the Japanese locations. */
  lemma JapanQueryFiltersJapan(query: string, word: string)
    requires Lower(word) in JapanKeywords && IsSubstring(word, query)
    requires !AnyIn(SpainKeywords, Lower(query))
    ensures DetectFilters(query) == Some(map["ubicacion" := InSet(["Tokio, Japón", "Japón"])])
  {
    KeywordDetected(JapanKeywords, query, word);
  }

  /** A Spain keyword, written in any case, with no Japan keyword present
      selects Spain. */
  lemma SpainQueryFiltersSpain(query: string, word: string)
    requires Lower(word) in SpainKeywords && IsSubstring(word, query)
    requires !AnyIn(JapanKeywords, Lower(query))
    ensures DetectFilters(query) == Some(map["ubicacion" := Equals("España")])
  {
    KeywordDetected(SpainKeywords, query, word);
  }

  /** A query naming both countries, or neither, is searched globally. */
  lemma AmbiguousQueryHasNoFilter(query: string)
    requires AnyIn(JapanKeywords, Lower(query)) == AnyIn(SpainKeywords, Lower(query))
    ensures DetectFilters(query) == None
  {
  }

  /** Matching is case-insensitive: a word of the query whose lower-case
      form is a keyword is detected. */
  lemma KeywordDetected(keywords: seq<string>, query: string, word: string)
    requires Lower(word) in keywords && IsSubstring(word, query)
    ensures AnyIn(keywords, Lower(query))
  {
    LowerKeepsSubstring(word, query);
    var i :| 0 <= i < |keywords| && keywords[i] == Lower(word);
  }

  /** Lower-casing the query first changes nothing. */
  lemma DetectFiltersIgnoresCase(query: string)
    ensures DetectFilters(Lower(query)) == DetectFilters(query)
  {
    LowerIdempotent(query);
  }

  /** Every keyword is already lower-case, so each one can match. */
  lemma KeywordsAreLowerCase()
    ensures forall i :: 0 <= i < |JapanKeywords| ==> Lower(JapanKeywords[i]) == JapanKeywords[i]
    ensures forall i :: 0 <= i < |SpainKeywords| ==> Lower(SpainKeywords[i]) == SpainKeywords[i]
  {
    forall i | 0 <= i < |JapanKeywords| ensures Lower(JapanKeywords[i]) == JapanKeywords[i] {
      LowerOfLowerCase(JapanKeywords[i]);
    }
    forall i | 0 <= i < |SpainKeywords| ensures Lower(SpainKeywords[i]) == SpainKeywords[i] {
      LowerOfLowerCase(SpainKeywords[i]);
    }
  }

  /** A string of letters outside A-Z and the Latin-1 capitals is its own
      lower-case form. */
  lemma LowerOfLowerCase(s: string)
    requires forall c :: c in s ==> 'a' <= c <= 'z' || c in "áéíóúñü"
    ensures Lower(s) == s
  {
    forall i | 0 <= i < |s| ensures Lower(s)[i] == s[i] {
      assert s[i] in s;
    }
  }
}
