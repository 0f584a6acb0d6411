/** The `/ingest` and `/query` handlers (app/api/endpoints.py): request validation,
    dispatch to the services, and the mapping of exceptions to HTTP errors. The
    services are given as functions from their arguments to their outcome. */
module Endpoints {
  import opened Values
  import opened Config
  import Ingestion
  import Query
  import Chunker
  import Llm

  /** An HTTP reply: the response body, or an error status with its detail. */
  datatype Response<T> = Ok(body: T) | HttpError(status: nat, detail: string)

  // ---------------------------------------------------------------------
  // POST /ingest
  // ---------------------------------------------------------------------

  datatype IngestRequest = IngestRequest(text: Option<string>, filePath: Option<string>, metadata: Option<Metadata>)

  /** `ingest_text(text, metadata)` and `ingest_pdf(file_path, metadata)` as the handler calls them. */
  type IngestCall = (string, Option<Metadata>) -> Result<Ingestion.IngestResult, Exception>

  const NeitherMessage: string := "Either 'text' or 'file_path' must be provided"
  const BothMessage: string := "Provide either 'text' or 'file_path', not both"

  /** The body of the `try`: validation, then the service call for the input given. */
  function IngestAttempt(request: IngestRequest, ingestText: IngestCall, ingestPdf: IngestCall): Result<Ingestion.IngestResult, Exception>
  {
    if !Present(request.text) && !Present(request.filePath) then Failure(HttpException(400, NeitherMessage))
    else if Present(request.text) && Present(request.filePath) then Failure(HttpException(400, BothMessage))
    else if Present(request.text) then ingestText(request.text.value, request.metadata)
    else ingestPdf(request.filePath.value, request.metadata)
  }

  /** The three `except` clauses, in order. */
  function IngestFailure(e: Exception): Response<Ingestion.IngestResult>
  {
    match e
    case FileNotFoundError(m) => HttpError(404, m)
    case ValueError(m) => HttpError(400, m)
    case _ => HttpError(500, "Ingestion failed: " + ExceptionText(e))
  }

  /** `ingest_document` as written: every exception raised in the `try`, the
      validation `HTTPException`s included, goes through the `except` clauses. */
  function IngestDocument(request: IngestRequest, ingestText: IngestCall, ingestPdf: IngestCall): Response<Ingestion.IngestResult>
  {
    match IngestAttempt(request, ingestText, ingestPdf)
    case Success(r) => Ok(r)
    case Failure(e) => IngestFailure(e)
  }

  /** `ingest_document` as evidently intended: a validation `HTTPException` reaches the
      client unchanged, and only the services' exceptions are mapped. */
  function IngestDocumentIntended(request: IngestRequest, ingestText: IngestCall, ingestPdf: IngestCall): Response<Ingestion.IngestResult>
  {
    match IngestAttempt(request, ingestText, ingestPdf)
    case Success(r) => Ok(r)
    case Failure(HttpException(code, detail)) => HttpError(code, detail)
    case Failure(e) => IngestFailure(e)
  }

  /** As written, a request with neither input, or with both, is answered with 500 and
      the rendered 400 exception, not with the 400 the handler raises. */
  lemma {:induction false} ValidationBecomesServerError(request: IngestRequest, ingestText: IngestCall, ingestPdf: IngestCall)
    ensures !Present(request.text) && !Present(request.filePath) ==>
      IngestDocument(request, ingestText, ingestPdf)
      == HttpError(500, "Ingestion failed: 400: " + NeitherMessage)
    ensures Present(request.text) && Present(request.filePath) ==>
      IngestDocument(request, ingestText, ingestPdf)
      == HttpError(500, "Ingestion failed: 400: " + BothMessage)
  {
    assert NatToString(400) == "400" by {
      assert NatToString(4) == "4";
      assert NatToString(40) == NatToString(4) + "0";
      assert NatToString(400) == NatToString(40) + "0";
    }
    if !Present(request.text) && !Present(request.filePath) {
      assert IngestAttempt(request, ingestText, ingestPdf) == Failure(HttpException(400, NeitherMessage));
      assert ExceptionText(HttpException(400, NeitherMessage)) == "400" + ": " + NeitherMessage;
      RenderedPrefix(NeitherMessage);
    }
    if Present(request.text) && Present(request.filePath) {
      assert IngestAttempt(request, ingestText, ingestPdf) == Failure(HttpException(400, BothMessage));
      assert ExceptionText(HttpException(400, BothMessage)) == "400" + ": " + BothMessage;
      RenderedPrefix(BothMessage);
    }
  }

  lemma RenderedPrefix(detail: string)
    ensures "Ingestion failed: " + ("400" + ": " + detail) == "Ingestion failed: 400: " + detail
  {
    var head := "Ingestion failed: " + "400" + ": ";
    assert "Ingestion failed: " + ("400" + ": " + detail) == head + detail;
    assert |head| == |"Ingestion failed: 400: "|;
    assert forall i :: 0 <= i < |head| ==> head[i] == "Ingestion failed: 400: "[i];
  }

  /** Corrected: invalid requests get 400 with the validation message and no service
      is called; a valid request is answered exactly as in the handler as written. */
  lemma {:induction false} IntendedValidation(request: IngestRequest, ingestText: IngestCall, ingestPdf: IngestCall,
                                              otherText: IngestCall, otherPdf: IngestCall)
    ensures !Present(request.text) && !Present(request.filePath) ==>
      IngestDocumentIntended(request, ingestText, ingestPdf) == HttpError(400, NeitherMessage)
      && IngestDocumentIntended(request, otherText, otherPdf) == HttpError(400, NeitherMessage)
    ensures Present(request.text) && Present(request.filePath) ==>
      IngestDocumentIntended(request, ingestText, ingestPdf) == HttpError(400, BothMessage)
      && IngestDocumentIntended(request, otherText, otherPdf) == HttpError(400, BothMessage)
    ensures var attempt := IngestAttempt(request, ingestText, ingestPdf);
      Present(request.text) != Present(request.filePath) && !(attempt.Failure? && attempt.error.HttpException?) ==>
      IngestDocumentIntended(request, ingestText, ingestPdf) == IngestDocument(request, ingestText, ingestPdf)
  {
  }

  /** A valid request calls exactly one service: `ingest_text` when the text is
      non-empty, otherwise `ingest_pdf` with the path, each with the request's
      metadata; the reply is the service's result or its exception mapped to a status. */
  lemma {:induction false} IngestDispatch(request: IngestRequest, ingestText: IngestCall, ingestPdf: IngestCall)
    requires Present(request.text) != Present(request.filePath)
    ensures var outcome := if Present(request.text) then ingestText(request.text.value, request.metadata)
                           else ingestPdf(request.filePath.value, request.metadata);
      && (outcome.Success? ==> IngestDocument(request, ingestText, ingestPdf) == Ok(outcome.value))
      && (outcome.Failure? && outcome.error.FileNotFoundError? ==>
            IngestDocument(request, ingestText, ingestPdf) == HttpError(404, outcome.error.message))
      && (outcome.Failure? && outcome.error.ValueError? ==>
            IngestDocument(request, ingestText, ingestPdf) == HttpError(400, outcome.error.message))
      && (outcome.Failure? && (outcome.error.OtherException? || outcome.error.HttpException?) ==>
            IngestDocument(request, ingestText, ingestPdf)
            == HttpError(500, "Ingestion failed: " + ExceptionText(outcome.error)))
  {
  }

  /** Through the ingestion service: non-empty text that is all whitespace makes no
      chunks, so the reply is 400 with the service's message, and nothing is written. */
  lemma {:induction false} BlankTextIs400(settings: Settings, embed: seq<string> -> seq<Vector>, dimension: nat,
                                          uuidHex: string, now: string, text: string, metadata: Option<Metadata>,
                                          ingestText: IngestCall, ingestPdf: IngestCall)
    requires settings.chunkSize >= 1 && text != ""
    requires forall i :: 0 <= i < |text| ==> Chunker.IsWhitespace(text[i])
    requires ingestText(text, metadata)
             == Ingestion.TextIngestion(settings, embed, dimension, uuidHex, now, text,
                                        if metadata.Some? then metadata.value else map[]).result
    ensures Ingestion.TextIngestion(settings, embed, dimension, uuidHex, now, text,
                                    if metadata.Some? then metadata.value else map[]).written == []
    ensures IngestDocument(IngestRequest(Some(text), None, metadata), ingestText, ingestPdf)
            == HttpError(400, Ingestion.NoChunksMessage)
  {
    var md := if metadata.Some? then metadata.value else map[];
    var service := Ingestion.TextIngestion(settings, embed, dimension, uuidHex, now, text, md);
    Ingestion.BlankTextRejected(settings, embed, dimension, uuidHex, now, text, md);
    assert service.result == Failure(ValueError(Ingestion.NoChunksMessage));
    assert IngestAttempt(IngestRequest(Some(text), None, metadata), ingestText, ingestPdf) == service.result;
  }

  // ---------------------------------------------------------------------
  // POST /query
  // ---------------------------------------------------------------------

  datatype QueryRequest = QueryRequest(question: string, k: Option<int>, metadataFilter: Option<Metadata>,
                                       includeSources: Option<bool>)

  datatype QueryResponse = QueryResponse(success: bool, question: string, answer: string,
                                         contextChunks: seq<ContextChunk>, numChunksRetrieved: nat)

  /** `query(question, k, metadata_filter)` as the handler calls it. */
  type QueryCall = (string, Option<int>, Option<Metadata>) -> Result<Query.QueryResult, Exception>

  /** The request schema admits `k` from 1 to 20, or None. */
  predicate ValidK(k: Option<int>)
  {
    k.None? || 1 <= k.value <= 20
  }

  /** `include_sources` is truthy. */
  predicate WantsSources(includeSources: Option<bool>)
  {
    includeSources.Some? && includeSources.value
  }

  /** `query_rag` */
  function QueryRag(request: QueryRequest, query: QueryCall): Response<QueryResponse>
    requires ValidK(request.k)
  {
    match query(request.question, request.k, request.metadataFilter)
    case Failure(e) => HttpError(500, "Query failed: " + ExceptionText(e))
    case Success(r) =>
      var chunks := if WantsSources(request.includeSources) then r.contextChunks else [];
      Ok(QueryResponse(r.success, r.question, r.answer, chunks, r.numChunksRetrieved))
  }

  /** The reply copies the service's result, except that the chunks are dropped when
      `include_sources` is false or None while the count still reports them; any
      exception is a 500. */
  lemma {:induction false} QueryRagReply(request: QueryRequest, query: QueryCall)
    requires ValidK(request.k)
    ensures var outcome := query(request.question, request.k, request.metadataFilter);
      var reply := QueryRag(request, query);
      && (outcome.Failure? ==> reply == HttpError(500, "Query failed: " + ExceptionText(outcome.error)))
      && (outcome.Success? ==>
            && reply.Ok?
            && reply.body.success == outcome.value.success
            && reply.body.question == outcome.value.question
            && reply.body.answer == outcome.value.answer
            && reply.body.numChunksRetrieved == outcome.value.numChunksRetrieved
            && (WantsSources(request.includeSources) ==> reply.body.contextChunks == outcome.value.contextChunks)
            && (!WantsSources(request.includeSources) ==> reply.body.contextChunks == []))
  {
  }

  /** Through the query service: the reply counts every retrieved chunk, and lists
      them when sources are wanted. */
  lemma {:induction false} QueryRagCounts(settings: Settings, embedQuery: string -> Vector,
                                          search: (Vector, int, Option<Metadata>) -> Query.SearchResults,
                                          llm: string -> Llm.LlmOutcome, request: QueryRequest)
    requires ValidK(request.k)
    ensures var query := (q: string, k: Option<int>, f: Option<Metadata>) =>
              Success(Query.Query(settings, embedQuery, search, llm, q, k, f));
      var retrieved := Query.Retrieved(settings, embedQuery, search, request.question, request.k, request.metadataFilter);
      var reply := QueryRag(request, query);
      && reply.Ok?
      && reply.body.numChunksRetrieved == |retrieved|
      && reply.body.contextChunks == (if WantsSources(request.includeSources) then retrieved else [])
      && (retrieved == [] ==> reply.body.answer == Query.NoContextAnswer)
  {
  }
}
