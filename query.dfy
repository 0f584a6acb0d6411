/** QueryService (app/services/query.py): filtering the raw search results by
    similarity, and the query pipeline around it. The embedding model, the vector
    search and the language model are function parameters. */
module Query {
  import opened Values
  import opened Config
  import Llm

  /** What `similarity_search` returns; any of the four lists may be missing. */
  datatype SearchResults = SearchResults(
    documents: Option<seq<string>>,
    metadatas: Option<seq<Metadata>>,
    distances: Option<seq<real>>,
    ids: Option<seq<string>>)

  /** One entry of the four zipped lists. */
  datatype Hit = Hit(document: string, metadata: Metadata, distance: real, id: string)

  /** `search_results.get(key, [])` */
  function Column<T>(column: Option<seq<T>>): seq<T>
  {
    if column.Some? then column.value else []
  }

  function Min(a: nat, b: nat): nat
  {
    if a <= b then a else b
  }

  /** `zip(documents, metadatas, distances, ids)`: as long as the shortest list. */
  function Zipped(r: SearchResults): (hits: seq<Hit>)
    ensures |hits| == Min(Min(|Column(r.documents)|, |Column(r.metadatas)|), Min(|Column(r.distances)|, |Column(r.ids)|))
    ensures forall i :: 0 <= i < |hits| ==>
              hits[i] == Hit(Column(r.documents)[i], Column(r.metadatas)[i], Column(r.distances)[i], Column(r.ids)[i])
  {
    var d, m, s, ids := Column(r.documents), Column(r.metadatas), Column(r.distances), Column(r.ids);
    var n := Min(Min(|d|, |m|), Min(|s|, |ids|));
    seq(n, i requires 0 <= i < n => Hit(d[i], m[i], s[i], ids[i]))
  }

  // ---------------------------------------------------------------------
  // Rounding
  // ---------------------------------------------------------------------

  /** `round(x, 4)` on the exact value: to the nearest multiple of 1/10000, ties to even. */
  function Round4(x: real): (r: real)
    ensures -(1.0 / 20000.0) <= r - x <= 1.0 / 20000.0
    ensures (r * 10000.0).Floor as real == r * 10000.0
  {
    var scaled := x * 10000.0;
    var f := scaled.Floor;
    var frac := scaled - f as real;
    var n := if frac > 0.5 then f + 1
             else if frac < 0.5 then f
             else if f % 2 == 0 then f else f + 1;
    n as real / 10000.0
  }

  /** Rounding does not carry a score below a threshold that has at most four decimals. */
  lemma {:induction false} Round4KeepsGridBound(x: real, t: real)
    requires x >= t && (t * 10000.0).Floor as real == t * 10000.0
    ensures Round4(x) >= t
  {
    var scaled := x * 10000.0;
    assert scaled >= t * 10000.0;
    assert scaled.Floor >= (t * 10000.0).Floor;
  }

  // ---------------------------------------------------------------------
  // _process_search_results
  // ---------------------------------------------------------------------

  /** Cosine distance turned into a similarity. */
  function Similarity(h: Hit): real
  {
    1.0 - h.distance
  }

  /** The unrounded similarity is what the threshold is compared with. */
  predicate Relevant(h: Hit, threshold: real)
  {
    Similarity(h) >= threshold
  }

  function ToChunk(h: Hit): ContextChunk
  {
    ContextChunk(h.document, h.metadata, Round4(Similarity(h)), h.id)
  }

  /** The hits at or above the threshold, in order, as context chunks. */
  function KeepRelevant(hits: seq<Hit>, threshold: real): seq<ContextChunk>
    decreases |hits|
  {
    if hits == [] then []
    else
      var last := hits[|hits| - 1];
      KeepRelevant(hits[..|hits| - 1], threshold) + (if Relevant(last, threshold) then [ToChunk(last)] else [])
  }

  /** The positions of the kept hits, in increasing order. */
  function KeptIndices(hits: seq<Hit>, threshold: real): seq<nat>
    decreases |hits|
  {
    if hits == [] then []
    else
      var n := |hits| - 1;
      KeptIndices(hits[..n], threshold) + (if Relevant(hits[n], threshold) then [n] else [])
  }

  /** `QueryService._process_search_results` */
  method ProcessSearchResults(results: SearchResults, threshold: real) returns (chunks: seq<ContextChunk>)
    ensures chunks == KeepRelevant(Zipped(results), threshold)
  {
    var documents := Column(results.documents);
    var metadatas := Column(results.metadatas);
    var distances := Column(results.distances);
    var ids := Column(results.ids);
    ghost var hits := Zipped(results);
    var n := Min(Min(|documents|, |metadatas|), Min(|distances|, |ids|));
    chunks := [];
    var i := 0;
    while i < n
      invariant 0 <= i <= n
      invariant chunks == KeepRelevant(hits[..i], threshold)
    {
      assert hits[..i + 1][..i] == hits[..i];
      var similarityScore := 1.0 - distances[i];
      if similarityScore >= threshold {
        chunks := chunks + [ContextChunk(documents[i], metadatas[i], Round4(similarityScore), ids[i])];
      }
      i := i + 1;
    }
    assert hits[..n] == hits;
  }

  /** The kept positions are increasing, and a position is kept exactly when its hit is relevant. */
  lemma {:induction false} KeptIndicesExactly(hits: seq<Hit>, threshold: real)
    ensures var idx := KeptIndices(hits, threshold);
      && (forall j :: 0 <= j < |idx| ==> idx[j] < |hits|)
      && (forall j, j' :: 0 <= j < j' < |idx| ==> idx[j] < idx[j'])
      && (forall i :: 0 <= i < |hits| ==> (i in idx <==> Relevant(hits[i], threshold)))
    decreases |hits|
  {
    if hits != [] {
      var n := |hits| - 1;
      var front := hits[..n];
      KeptIndicesExactly(front, threshold);
      var idx := KeptIndices(hits, threshold);
      var frontIdx := KeptIndices(front, threshold);
      assert idx == frontIdx + (if Relevant(hits[n], threshold) then [n] else []);
      forall i | 0 <= i < |hits|
        ensures i in idx <==> Relevant(hits[i], threshold)
      {
        if i < n {
          assert hits[i] == front[i];
        }
      }
    }
  }

  /** The filter keeps exactly the relevant hits, in their original order, and
      each kept chunk carries its own hit's text, metadata and id with the rounded
      similarity. */
  lemma {:induction false} KeepRelevantExactly(hits: seq<Hit>, threshold: real)
    ensures var kept := KeepRelevant(hits, threshold); var idx := KeptIndices(hits, threshold);
      && |kept| == |idx| <= |hits|
      && (forall j :: 0 <= j < |idx| ==> idx[j] < |hits| && kept[j] == ToChunk(hits[idx[j]]))
      && (forall j, j' :: 0 <= j < j' < |idx| ==> idx[j] < idx[j'])
      && (forall i :: 0 <= i < |hits| ==> (i in idx <==> Relevant(hits[i], threshold)))
  {
    KeptIndicesExactly(hits, threshold);
    KeepRelevantAt(hits, threshold);
  }

  lemma {:induction false} KeepRelevantAt(hits: seq<Hit>, threshold: real)
    ensures var kept := KeepRelevant(hits, threshold); var idx := KeptIndices(hits, threshold);
      && |kept| == |idx| <= |hits|
      && (forall j :: 0 <= j < |idx| ==> idx[j] < |hits| && kept[j] == ToChunk(hits[idx[j]]))
    decreases |hits|
  {
    if hits != [] {
      var n := |hits| - 1;
      var front := hits[..n];
      KeepRelevantAt(front, threshold);
      var frontIdx := KeptIndices(front, threshold);
      assert forall j :: 0 <= j < |frontIdx| ==> hits[frontIdx[j]] == front[frontIdx[j]];
    }
  }

  /** Lowering the threshold never drops a kept hit. */
  lemma {:induction false} LowerThresholdKeepsMore(hits: seq<Hit>, low: real, high: real)
    requires low <= high
    ensures forall i :: i in KeptIndices(hits, high) ==> i in KeptIndices(hits, low)
    ensures |KeepRelevant(hits, high)| <= |KeepRelevant(hits, low)|
    decreases |hits|
  {
    if hits != [] {
      LowerThresholdKeepsMore(hits[..|hits| - 1], low, high);
    }
  }

  /** With a threshold of at most four decimals (0.5 by default), every reported
      score is at least the threshold, so the rounding never shows a kept chunk below it. */
  lemma {:induction false} ReportedScoresMeetThreshold(hits: seq<Hit>, threshold: real)
    requires (threshold * 10000.0).Floor as real == threshold * 10000.0
    ensures forall c :: c in KeepRelevant(hits, threshold) ==> c.similarityScore >= threshold
    decreases |hits|
  {
    if hits != [] {
      var last := hits[|hits| - 1];
      ReportedScoresMeetThreshold(hits[..|hits| - 1], threshold);
      if Relevant(last, threshold) {
        Round4KeepsGridBound(Similarity(last), threshold);
      }
    }
  }

  // ---------------------------------------------------------------------
  // query and retrieve_only
  // ---------------------------------------------------------------------

  /** The dictionary `query` returns. */
  datatype QueryResult = QueryResult(
    success: bool,
    question: string,
    answer: string,
    contextChunks: seq<ContextChunk>,
    numChunksRetrieved: nat)

  const NoContextAnswer: string := "No relevant context found to answer this question."

  /** `k` as passed to the search: the configured default when None. */
  function EffectiveK(settings: Settings, k: Option<int>): int
  {
    if k.None? then settings.topKResults else k.value
  }

  /** The context chunks of a question: embed, search with `k` and the filter, then filter by similarity. */
  function Retrieved(settings: Settings, embedQuery: string -> Vector,
                     search: (Vector, int, Option<Metadata>) -> SearchResults,
                     question: string, k: Option<int>, metadataFilter: Option<Metadata>): seq<ContextChunk>
  {
    KeepRelevant(Zipped(search(embedQuery(question), EffectiveK(settings, k), metadataFilter)),
                 settings.similarityThreshold)
  }

  /** `QueryService.query` */
  function Query(settings: Settings, embedQuery: string -> Vector,
                 search: (Vector, int, Option<Metadata>) -> SearchResults, llm: string -> Llm.LlmOutcome,
                 question: string, k: Option<int>, metadataFilter: Option<Metadata>): QueryResult
  {
    var chunks := Retrieved(settings, embedQuery, search, question, k, metadataFilter);
    var answer := if chunks != [] then Llm.GenerateAnswer(llm, question, chunks) else NoContextAnswer;
    QueryResult(true, question, answer, chunks, |chunks|)
  }

  /** `QueryService.retrieve_only`: the same pipeline without the model. */
  function RetrieveOnly(settings: Settings, embedQuery: string -> Vector,
                        search: (Vector, int, Option<Metadata>) -> SearchResults,
                        question: string, k: Option<int>, metadataFilter: Option<Metadata>): seq<ContextChunk>
  {
    Retrieved(settings, embedQuery, search, question, k, metadataFilter)
  }

  /** The query result reports success, echoes the question, counts its chunks, and
      answers with the fixed fallback exactly when no chunk survived, in which case
      the model plays no part; otherwise the answer is the model's. */
  lemma {:induction false} QueryAnswers(settings: Settings, embedQuery: string -> Vector,
                                        search: (Vector, int, Option<Metadata>) -> SearchResults,
                                        llm: string -> Llm.LlmOutcome, other: string -> Llm.LlmOutcome,
                                        question: string, k: Option<int>, metadataFilter: Option<Metadata>)
    ensures var r := Query(settings, embedQuery, search, llm, question, k, metadataFilter);
      var chunks := Retrieved(settings, embedQuery, search, question, k, metadataFilter);
      && r.success && r.question == question
      && r.contextChunks == chunks && r.numChunksRetrieved == |r.contextChunks|
      && (chunks == [] ==>
            r.answer == NoContextAnswer && Query(settings, embedQuery, search, other, question, k, metadataFilter) == r)
      && (chunks != [] ==> r.answer == Llm.GenerateAnswer(llm, question, chunks))
  {
  }

  /** `retrieve_only` returns exactly the context chunks `query` would, whatever the model. */
  lemma {:induction false} RetrieveOnlyMatchesQuery(settings: Settings, embedQuery: string -> Vector,
                                                    search: (Vector, int, Option<Metadata>) -> SearchResults,
                                                    llm: string -> Llm.LlmOutcome,
                                                    question: string, k: Option<int>, metadataFilter: Option<Metadata>)
    ensures RetrieveOnly(settings, embedQuery, search, question, k, metadataFilter)
            == Query(settings, embedQuery, search, llm, question, k, metadataFilter).contextChunks
  {
  }

  /** The search is consulted once, with the question's embedding, `k` (the default
      when None) and the filter unchanged: two searches that agree on that call give
      the same result. */
  lemma {:induction false} QuerySearchesOnce(settings: Settings, embedQuery: string -> Vector,
                                             s1: (Vector, int, Option<Metadata>) -> SearchResults,
                                             s2: (Vector, int, Option<Metadata>) -> SearchResults,
                                             llm: string -> Llm.LlmOutcome,
                                             question: string, k: Option<int>, metadataFilter: Option<Metadata>)
    requires s1(embedQuery(question), EffectiveK(settings, k), metadataFilter)
             == s2(embedQuery(question), EffectiveK(settings, k), metadataFilter)
    ensures Query(settings, embedQuery, s1, llm, question, k, metadataFilter)
            == Query(settings, embedQuery, s2, llm, question, k, metadataFilter)
    ensures k.None? ==> EffectiveK(settings, k) == settings.topKResults
    ensures k.Some? ==> EffectiveK(settings, k) == k.value
  {
  }
}
