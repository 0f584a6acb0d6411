# VRHouse-RAG core in Dafny

A model of the retrieval-augmented-generation service VRHouse-RAG, with proofs about it. The model covers four parts of the service.

- **The text chunker** (`TextChunker` in app/core/rag.py):
  - whitespace normalisation;
  - the sliding window, which snaps each window end back to a space and applies `chunk_overlap`.
- **The language-model service** (`LLMService` in app/core/rag.py):
  - the context block built from the retrieved chunks;
  - the prompt template;
  - the answer-or-error result of one generation.
- **The ingestion service** (app/services/ingestion.py): `ingest_text` and `ingest_pdf`. This covers:
  - document and chunk ids;
  - the metadata stored with each chunk;
  - the date default written into the caller's dictionary;
  - the single batch written to the vector store;
  - the error paths.
- **The query service and the HTTP handlers** (app/services/query.py, app/api/endpoints.py):
  - the similarity filter over raw search results;
  - the fallback answer when nothing is relevant;
  - `retrieve_only`;
  - request validation;
  - the mapping of exceptions to HTTP status codes.

The modules follow the program's structure:

| module | file | models |
|---|---|---|
| `Values` | values.dfy | Python's `None`/str/int/bool metadata values, truthiness, `str()` of ints and exceptions, `"sep".join` |
| `Config` | config.py defaults | the settings the core reads (chunk size 500, overlap 50, top-k 5, threshold 0.5) |
| `Chunker` | rag.py | `_clean_text`, `chunk_text` |
| `Llm` | rag.py | `_format_context`, the system prompt, `generate_answer` |
| `Store` | vector_store.py | a class whose ghost field records every `add_documents` batch |
| `Ingestion` | ingestion.py | `ingest_text`, `ingest_pdf`, `_extract_text_from_pdf` over the page texts |
| `Query` | query.py | `_process_search_results`, `query`, `retrieve_only` |
| `Endpoints` | endpoints.py | `ingest_document`, `query_rag` |

Where the source changes state step by step, the model is imperative:
- the `chunk_text` loop;
- the `_format_context` loop;
- the per-chunk loops of `ingest_text`;
- the caller's metadata dictionary, which is updated in place;
- the store write;
- the `_process_search_results` loop.

Each of these methods is proved equal to a specification function, and the properties are lemmas about that function. Straight-line code is written as functions: `query`, `retrieve_only`, `generate_answer` and the handlers.

The collaborators are parameters:
- the embedding model;
- the vector search;
- the Gemini model (a function from prompt to text or error message);
- `os.path.exists`;
- the PDF reader (a function from path to page texts or error message);
- the uuid's hex digits;
- the clock's `isoformat()` string.

Two details of the code that the model follows exactly:
- **Threshold.** query.py:100-108 compares the unrounded `1.0 - distance` with the threshold and stores the rounded value. A similarity of 0.49996 is therefore dropped at the default threshold 0.5, although it would be reported as 0.5. `Query.ReportedScoresMeetThreshold` shows that every reported score meets a threshold with at most four decimals.
- **Source default.** ingestion.py:78 reads `metadata.get("source", "direct_input")`, so a caller's `source: None` is copied as None.

## Model

| member | source | states |
|---|---|---|
| Chunker.StripFacts | app/core/rag.py:75 | `strip()` returns a slice of its argument with no whitespace at either end, and it is empty exactly when the argument is all whitespace |
| Chunker.Clean | app/core/rag.py:68-76 | specification of `_clean_text`: collapse every whitespace run, then strip; its properties are the `Clean…` lemmas below |
| Chunker.Collapse | app/core/rag.py:73 | `re.sub(r'\s+', ' ', …)`: the result is never longer than the input, is empty exactly when the input is, and starts with whitespace exactly when the input does |
| Chunker.CollapseSingleSpaced | app/core/rag.py:73 | after the collapse every whitespace character is a plain space and no two are adjacent |
| Chunker.CollapseRun | app/core/rag.py:73 | a whitespace run between text ending in a non-whitespace character and text that is empty or starts with one becomes exactly one space: `Collapse(a + w + b) == Collapse(a) + " " + Collapse(b)` |
| Chunker.CleanIsClean | app/core/rag.py:68-76 | the cleaned text has no whitespace at either end; every whitespace character in it is a plain space, and no two whitespace characters are adjacent |
| Chunker.CollapseFixesSingleSpaced | app/core/rag.py:73 | the `\s+` collapse leaves a string that is already single-spaced unchanged |
| Chunker.CleanIdempotent | app/core/rag.py:68-76 | cleaning twice gives the same text as cleaning once |
| Chunker.CleanKeepsText | app/core/rag.py:68-76 | cleaning removes only whitespace: the other characters survive, in order |
| Chunker.CleanEmptyIff | app/core/rag.py:68-76 | the cleaned text is empty exactly when the input is all whitespace |
| Chunker.RFind | app/core/rag.py:49 | `rfind(' ', start, end)` gives the last position in [start, end) holding a space, or -1 when there is none |
| Chunker.WindowEnd | app/core/rag.py:44-51 | the window end is never before the start and at most `chunk_size` after it; when the window stops short of the text's end and has a space strictly inside, the end is the last such space |
| Chunker.NextStart | app/core/rag.py:58-64 | the next start is `end - overlap` when that is after the start, and `end` otherwise; it never goes backwards, and it moves forward whenever the window is non-empty |
| Chunker.SlideWindows | app/core/rag.py:33-66 | the `while` loop, including the `prev_start` guard, collects exactly the non-empty stripped slices of the windows the specification visits, in order |
| Chunker.Windows | app/core/rag.py:34-64 | specification of the windows the loop visits from start 0; its properties are `WindowsOrdered`, `WindowsCover`, `WindowsSnapToSpaces` and `WindowsFromProgress` |
| Chunker.Chunk | app/core/rag.py:19-66 | specification of `chunk_text` on a `chunk_size >= 0`; its properties are `ChunksWellFormed`, `ChunksEmptyIff` and `ShortTextOneChunk` |
| Chunker.ChunkText | app/core/rag.py:19-66 | `chunk_text` equals the specification `Chunk`; every chunk is non-empty, at most `chunk_size` long and clean |
| Chunker.ShortTextOneChunk | app/core/rag.py:28-31 | a cleaned text no longer than `chunk_size` gives `[]` when empty and exactly `[cleaned]` otherwise |
| Chunker.ChunksWellFormed | app/core/rag.py:44-55 | every emitted chunk is non-empty, clean and at most `chunk_size` long |
| Chunker.ChunksComeFromWindows | app/core/rag.py:53-55 | every chunk is the stripped slice of one of the visited windows |
| Chunker.WindowsFromProgress | app/core/rag.py:37-64 | for `chunk_size >= 1`: every window has `start < end <= start + chunk_size`, starts strictly increase, the `prev_start` guard never fires, the loop stops only once the next start reaches the end of the text, and there are at most `len(text)` iterations |
| Chunker.WindowsOrdered | app/core/rag.py:34-64 | the first window starts at 0 and starts strictly increase; each next start is the previous end minus the overlap when that is after the previous start, and the previous end otherwise; with a non-negative overlap the last window reaches the end of the text |
| Chunker.WindowsCover | app/core/rag.py:34-64 | with `chunk_size >= 1` and a non-negative overlap, every index of the cleaned text lies in some window |
| Chunker.WindowsSnapToSpaces | app/core/rag.py:44-51 | every visited window either ends at the last space strictly inside it (when it stops short of the text's end and has one) or is exactly `chunk_size` long before clamping |
| Chunker.ZeroSizeNoChunks | app/core/rag.py:37-64 | `chunk_size = 0` gives no chunks; with a non-negative overlap the `prev_start` guard ends the loop after a single empty window |
| Chunker.ChunksEmptyIff | app/core/rag.py:28-66 | with `chunk_size >= 1` there are no chunks exactly when the text is all whitespace |
| Values.JoinAt | app/core/rag.py:156 | in `"sep".join(parts)` every part appears at its offset, in order, followed by the separator unless it is the last part |
| Llm.Formatted | app/core/rag.py:143-156 | specification of `_format_context`: the blocks joined with `"\n---\n"`; its properties are `FormattedLayout` and `FormattedEmptyIff` |
| Llm.FormatContext | app/core/rag.py:143-156 | the loop builds exactly one block per chunk, in order, and joins them with `"\n---\n"` |
| Llm.FormattedLayout | app/core/rag.py:143-156 | block `i` is `"[Source ID: d, File: s]\n" + text + "\n"` and sits at its offset in the context, followed by the separator unless it is the last block; `d` defaults to `doc_<i>` and `s` to `Unknown` |
| Llm.FormattedEmptyIff | app/core/rag.py:156 | the context is empty exactly when there are no chunks |
| Llm.DefaultLabelsDistinct | app/core/rag.py:148 | chunks at different positions that carry no `doc_id` get different labels |
| Llm.Prompt | app/core/rag.py:92-134 | the system prompt with the context and the question filled in; its properties are `PromptRecovers` and `PromptInjective` |
| Llm.PromptRecovers | app/core/rag.py:92-134 | the context and the question can be read back from the prompt at offsets fixed by the context's length |
| Llm.PromptInjective | app/core/rag.py:92-134 | for contexts of equal length, equal prompts mean equal contexts and equal questions |
| Llm.GenerateAnswer | app/core/rag.py:114-141 | specification of `generate_answer`; its cases are stated by `GenerateAnswerCases` |
| Llm.GenerateAnswerCases | app/core/rag.py:127-141 | the answer is the model's text for the prompt built from the formatted chunks and the question, or `"Error generating response: "` followed by the failure's message; the function never fails |
| Store.VectorStore.AddDocuments | app/core/vector_store.py:32-61 | one call appends exactly one batch with the given texts, embeddings, metadatas and ids, and returns those ids |
| Ingestion.DocId | app/services/ingestion.py:48 | the document id is `doc_` followed by the first eight hex digits of the uuid |
| Ingestion.ChunkIdParts | app/services/ingestion.py:72 | a chunk id splits back into the document id, `_chunk_` and the decimal index |
| Ingestion.ChunkIdsUnique | app/services/ingestion.py:72 | when document ids have equal length, two chunk ids are equal only for the same document and the same index |
| Ingestion.WithDate | app/services/ingestion.py:54-56 | the dictionary afterwards has `date`; every existing entry is kept unchanged; an absent `date` becomes the current time |
| Ingestion.ChunkMetadata | app/services/ingestion.py:76-93 | specification of one chunk's metadata; its fields are stated by `ChunkMetadataFields` and `ChunkMetadataIndexOnly` |
| Ingestion.BuildChunkMetadata | app/services/ingestion.py:76-93 | building one chunk's metadata, the loop over the caller's items included, gives exactly `ChunkMetadata` |
| Ingestion.ChunkRecords | app/services/ingestion.py:68-93 | the per-chunk loop gives, for every `i`, id `doc_id + "_chunk_" + str(i)` and metadata `ChunkMetadata(i)` |
| Ingestion.ChunkMetadataFields | app/services/ingestion.py:76-93 | each chunk's metadata holds the document id and the index. `source` is the caller's value when the key is present and `direct_input` otherwise. `date` and `topic` appear exactly when truthy. Every other caller field appears exactly when it is not None, unchanged. The caller cannot override `doc_id` or `chunk_index` |
| Ingestion.ChunkMetadataIndexOnly | app/services/ingestion.py:76-93 | the chunk metadatas of one document differ only in `chunk_index` |
| Ingestion.DateDefaulting | app/services/ingestion.py:54-84 | a caller `date` of None is not defaulted and is left out of every chunk; an absent `date` is set to the current time and stored with every chunk |
| Ingestion.TextIngestion | app/services/ingestion.py:32-115 | specification of `ingest_text`: the result and the batches written; its properties are `TextIngestionWrites`, `BlankTextRejected` and `DateDefaulting` |
| Ingestion.IngestText | app/services/ingestion.py:32-115 | the caller's dictionary gets the date default; the result and the batches written are those of `TextIngestion` |
| Ingestion.TextIngestionWrites | app/services/ingestion.py:59-115 | zero chunks is the only failure: it is the ValueError and nothing is written. Otherwise exactly one batch is written, holding the chunks in order with their embeddings, ids and metadatas. The returned ids are the stored ids, and the `chunk_ids[i]` and `chunk_index` fields match. `num_tokens` is the total length divided by 4, rounded down |
| Ingestion.BlankTextRejected | app/services/ingestion.py:59-62 | with `chunk_size >= 1`, ingestion fails without writing exactly when the text is all whitespace |
| Ingestion.PathJoin | app/services/ingestion.py:134 | POSIX `os.path.join` of two parts; its use is stated by `BaseNameOfJoin` |
| Ingestion.ResolvePath | app/services/ingestion.py:132-134 | an absolute path is kept, a relative one is joined under the upload directory; its use is stated by `BaseNameOfJoin` and `PdfFailures` |
| Ingestion.BaseName | app/services/ingestion.py:149 | `os.path.basename`: never longer than the path; `BaseNameSuffix` states what it is |
| Ingestion.BaseNameSuffix | app/services/ingestion.py:149 | `basename` is the longest suffix of the path that contains no `/` |
| Ingestion.BaseNameOfJoin | app/services/ingestion.py:133-149 | a file name without `/`, joined under the upload directory, has that file name as its base name |
| Ingestion.ExtractedText | app/services/ingestion.py:154-176 | the non-empty page texts joined with `"\n\n"`; `NoPagesNoText` and `PdfFailures` state its use |
| Ingestion.PdfIngestion | app/services/ingestion.py:117-152 | specification of `ingest_pdf`: the result and the batches written; its properties are `PdfFailures` and `PdfSourceIsFileName` |
| Ingestion.IngestPdf | app/services/ingestion.py:117-152 | the result and the batches written are those of `PdfIngestion`; the caller's dictionary is unchanged on every failure before delegation, and otherwise gets `source` set to the base name plus the date default |
| Ingestion.PdfSourceIsFileName | app/services/ingestion.py:145-152 | every chunk stored from a PDF has the file's base name as `source`, whatever `source` the caller gave |
| Ingestion.PdfFailures | app/services/ingestion.py:132-176 | a PDF ingestion writes nothing exactly when it fails: a missing file gives FileNotFoundError with the resolved path; a reader error gives ValueError with the extraction prefix; once the PDF is read, the no-text ValueError comes exactly when the extracted text is all whitespace |
| Ingestion.NoPagesNoText | app/services/ingestion.py:164-173 | pages that are all empty extract to "" |
| Query.Zipped | app/services/query.py:89-96 | the zipped results are as long as the shortest of the four lists, treating a missing list as empty, and entry `i` is the four `i`-th values |
| Query.Round4 | app/services/query.py:107 | the rounded score is within 1/20000 of the score and a multiple of 1/10000 |
| Query.KeepRelevant | app/services/query.py:94-111 | specification of the similarity filter; its properties are `KeepRelevantExactly`, `KeepRelevantAt`, `LowerThresholdKeepsMore` and `ReportedScoresMeetThreshold` |
| Query.ProcessSearchResults | app/services/query.py:74-111 | the loop collects exactly `KeepRelevant` of the zipped results |
| Query.KeepRelevantExactly | app/services/query.py:94-111 | the kept chunks correspond to increasing positions of the zipped input, and a position is kept exactly when `1.0 - distance >= threshold`; each chunk carries its own text, metadata and id with the rounded score; there are no more chunks than inputs |
| Query.LowerThresholdKeepsMore | app/services/query.py:103 | lowering the threshold never drops a kept position |
| Query.ReportedScoresMeetThreshold | app/services/query.py:100-108 | for a threshold with at most four decimals, every reported (rounded) score is at least the threshold |
| Query.Query | app/services/query.py:23-72 | specification of `query`; its properties are `QueryAnswers` and `QuerySearchesOnce` |
| Query.RetrieveOnly | app/services/query.py:113-141 | specification of `retrieve_only`; `RetrieveOnlyMatchesQuery` states it |
| Query.QueryAnswers | app/services/query.py:23-72 | the result reports success, echoes the question and counts its chunks. With no relevant chunks the answer is the fixed fallback and the model plays no part; otherwise the answer is `generate_answer`'s |
| Query.RetrieveOnlyMatchesQuery | app/services/query.py:113-141 | `retrieve_only` returns exactly the chunks `query` would, whatever the model |
| Query.QuerySearchesOnce | app/services/query.py:41-52 | the search is consulted only at the question's embedding; `k` is passed as given or as the configured default when None; the filter is passed unchanged |
| Endpoints.IngestDocument | app/api/endpoints.py:38-92 | `ingest_document` as written; its behaviour is stated by `ValidationBecomesServerError`, `IngestDispatch` and `BlankTextIs400` |
| Endpoints.IngestDocumentIntended | app/api/endpoints.py:38-92 | `ingest_document` with validation errors passed through unchanged; `IntendedValidation` states it |
| Endpoints.ValidationBecomesServerError | app/api/endpoints.py:48-92 | as written, a request with neither input or with both is answered 500 with `Ingestion failed: 400: ` followed by the validation message |
| Endpoints.IntendedValidation | app/api/endpoints.py:52-62 | corrected handler: invalid requests get 400 with the validation message, whatever the services do; valid requests are answered as in the handler as written |
| Endpoints.IngestDispatch | app/api/endpoints.py:64-92 | a valid request calls `ingest_text` when the text is truthy and `ingest_pdf` otherwise, passing the metadata through. The service's result is returned. FileNotFoundError gives 404, ValueError gives 400, anything else gives 500 with `Ingestion failed: ` |
| Endpoints.BlankTextIs400 | app/api/endpoints.py:65-87 | non-empty whitespace-only text writes nothing and is answered 400 with the no-chunks message |
| Endpoints.QueryRag | app/api/endpoints.py:109-151 | `query_rag`; its behaviour is stated by `QueryRagReply` and `QueryRagCounts` |
| Endpoints.QueryRagReply | app/api/endpoints.py:119-151 | the reply copies the service's success, question, answer and count. The chunks are dropped unless `include_sources` is true, and the count still reports them. Any exception gives 500 with `Query failed: ` |
| Endpoints.QueryRagCounts | app/api/endpoints.py:122-145 | through the query service, the reply counts every retrieved chunk, lists them only when sources are wanted, and carries the fallback answer when there are none |

## Left out

- The embedding model, the ChromaDB search (cosine ranking, `where` filtering, persistence), the Gemini client, pypdf and the file system are function parameters. The embedding model, the store write and the search are total functions: the exceptions they can raise are not modelled.
- Ingestion.TextIngestionWrites: holds only of the model, where "zero chunks is the only failure". In the source an exception from `generate_embeddings` (ingestion.py:65) or from `add_documents` (ingestion.py:96-101) also propagates, with nothing or part of the batch written. ChromaDB also rejects None metadata values, yet the model stores a caller's `source: None` as given.
- Endpoints.QueryRagCounts: an exception from the query embedding or the search (query.py:41-52) would give a 500 with `Query failed: …`. `QueryRagReply` states that mapping for any exception, but the model's query service never raises one.
- `uuid.uuid4()` and `datetime.now()` are parameters: the uuid's hex digits and the `isoformat()` string.
- Floating point: distances, similarities and the threshold are exact reals.
- Query.Round4: rounds the exact real half to even. It does not model IEEE `round(x, 4)` on binary doubles.
- Chunker.ChunkText: requires `chunk_size >= 0`. For a negative `chunk_size` the source loop may fail to terminate: the start can move backwards, and `rfind` reads a negative end from the back of the text.
- The `text` default `''` in `_format_context` is not modelled. Every chunk handed to it carries a text.
- `add_documents` with `ids=None` (fresh uuids) is not modelled. The ingestion service always passes ids.
- Pydantic validation is not modelled, apart from `k` in [1, 20], which is a precondition of `Endpoints.QueryRag`. The construction of `IngestResponse`/`ContextChunk` from the result dictionaries is also not modelled.
- `get_system_info`, `health_check`, `get_stats`, the lazy singletons, `async` and the FastAPI/CORS wiring carry no modelled logic.
- `str.format` and f-strings are modelled as concatenation of the rendered parts.
- Metadata values are limited to None, str, int and bool.
- Dictionaries are maps: the order of their keys is not modelled.
- `os.path.join`, `isabs` and `basename` follow their POSIX behaviour.
- Whitespace (`\s`, `str.strip`, `str.isspace`) is the fixed set of code points that Python's `str.isspace` accepts. Non-`str` patterns and locale flags are not modelled.

## Findings

| source | as written | input that shows it | evidently intended | confidence | as-written member | corrected member |
|---|---|---|---|---|---|---|
| app/api/endpoints.py:48-92 | the two validation `HTTPException(400, …)`s are raised inside the `try`, are neither FileNotFoundError nor ValueError, and are caught by `except Exception`, which re-raises them as 500 with `"Ingestion failed: " + str(e)`, i.e. `Ingestion failed: 400: Either 'text' or 'file_path' must be provided` | a request with neither `text` nor `file_path` (or with both) | the client gets 400 with the validation message | not executed | Endpoints.ValidationBecomesServerError | Endpoints.IntendedValidation |
