/** IngestionService (app/services/ingestion.py): document and chunk ids, the
    metadata stored with every chunk, the single batch written to the vector store,
    and the PDF entry point. The uuid, the clock, the embedding model, the file
    system and the PDF reader are parameters. */
module Ingestion {
  import opened Values
  import opened Config
  import Chunker
  import opened Store

  /** A caller's metadata dictionary; `ingest_text` and `ingest_pdf` update it in place. */
  class Dict {
    var entries: Metadata

    constructor (entries: Metadata)
      ensures this.entries == entries
    {
      this.entries := entries;
    }
  }

  /** The dictionary `ingest_text` returns on success. */
  datatype IngestResult = IngestResult(
    success: bool,
    message: string,
    docId: string,
    numChunks: nat,
    numTokens: nat,
    embeddingDimension: nat,
    chunkIds: seq<string>)

  const NoChunksMessage: string := "No valid chunks generated from the text"
  const SuccessMessage: string := "Document ingested successfully"
  const DefaultSource: string := "direct_input"

  // ---------------------------------------------------------------------
  // Ids
  // ---------------------------------------------------------------------

  /** `f"doc_{uuid4().hex[:8]}"`, given the hex digits of the uuid. */
  function DocId(uuidHex: string): (id: string)
    ensures |id| == 4 + (if |uuidHex| <= 8 then |uuidHex| else 8)
    ensures id[..4] == "doc_" && id[4..] == uuidHex[..|id| - 4]
  {
    "doc_" + (if |uuidHex| <= 8 then uuidHex else uuidHex[..8])
  }

  /** `f"{doc_id}_chunk_{i}"` */
  function ChunkId(docId: string, i: nat): string
  {
    docId + "_chunk_" + NatToString(i)
  }

  function ChunkIds(docId: string, n: nat): (ids: seq<string>)
    ensures |ids| == n
    ensures forall i :: 0 <= i < n ==> ids[i] == ChunkId(docId, i)
  {
    seq(n, i requires 0 <= i < n => ChunkId(docId, i))
  }

  /** A chunk id can be taken apart again: the document id, `_chunk_`, and the index. */
  lemma {:induction false} ChunkIdParts(docId: string, i: nat)
    ensures var c := ChunkId(docId, i);
      && |c| == |docId| + 7 + |NatToString(i)|
      && c[..|docId|] == docId
      && c[|docId|..|docId| + 7] == "_chunk_"
      && c[|docId| + 7..] == NatToString(i)
  {
    var c := ChunkId(docId, i);
    assert c == docId + ("_chunk_" + NatToString(i));
    assert c == (docId + "_chunk_") + NatToString(i);
  }

  /** Chunk ids of documents whose ids have the same length (every `doc_` + 8 hex id
      does) are equal only for the same document and the same index. */
  lemma {:induction false} ChunkIdsUnique(d1: string, i: nat, d2: string, j: nat)
    requires |d1| == |d2|
    requires d1 != d2 || i != j
    ensures ChunkId(d1, i) != ChunkId(d2, j)
  {
    if ChunkId(d1, i) == ChunkId(d2, j) {
      ChunkIdParts(d1, i);
      ChunkIdParts(d2, j);
      NatToStringInjective(i, j);
    }
  }

  // ---------------------------------------------------------------------
  // Chunk metadata
  // ---------------------------------------------------------------------

  /** `'date' not in metadata` adds the current time, in place. */
  function WithDate(metadata: Metadata, now: string): (m: Metadata)
    ensures "date" in m
    ensures forall k :: k in metadata ==> k in m && m[k] == metadata[k]
    ensures "date" !in metadata ==> m == metadata["date" := VStr(now)]
  {
    if "date" in metadata then metadata else metadata["date" := VStr(now)]
  }

  /** The keys a caller's own field can never set on a chunk. */
  predicate Reserved(k: string)
  {
    k == "source" || k == "date" || k == "topic" || k == "doc_id" || k == "chunk_index"
  }

  /** The id, source and index fields, and `date`/`topic` when truthy. */
  function FixedFields(docId: string, metadata: Metadata, i: nat): Metadata
  {
    var base := map["doc_id" := VStr(docId),
                    "source" := Get(metadata, "source", VStr(DefaultSource)),
                    "chunk_index" := VInt(i)];
    var withDate := if Truthy(Get(metadata, "date", VNone)) then base["date" := metadata["date"]] else base;
    if Truthy(Get(metadata, "topic", VNone)) then withDate["topic" := metadata["topic"]] else withDate
  }

  /** The caller's other fields among `keys` whose value is not None. */
  function CustomFields(metadata: Metadata, keys: set<string>): Metadata
  {
    map k | k in keys && k in metadata && !Reserved(k) && metadata[k] != VNone :: metadata[k]
  }

  /** The metadata stored with chunk `i` of document `docId`. */
  function ChunkMetadata(docId: string, metadata: Metadata, i: nat): Metadata
  {
    FixedFields(docId, metadata, i) + CustomFields(metadata, metadata.Keys)
  }

  function ChunkMetadatas(docId: string, metadata: Metadata, n: nat): (ms: seq<Metadata>)
    ensures |ms| == n
    ensures forall i :: 0 <= i < n ==> ms[i] == ChunkMetadata(docId, metadata, i)
  {
    seq(n, i requires 0 <= i < n => ChunkMetadata(docId, metadata, i))
  }

  /** Building one chunk's metadata: the fixed fields, then a loop over the caller's items. */
  method BuildChunkMetadata(docId: string, metadata: Metadata, i: nat) returns (cm: Metadata)
    ensures cm == ChunkMetadata(docId, metadata, i)
  {
    cm := map["doc_id" := VStr(docId),
              "source" := Get(metadata, "source", VStr(DefaultSource)),
              "chunk_index" := VInt(i)];
    if Truthy(Get(metadata, "date", VNone)) {
      cm := cm["date" := metadata["date"]];
    }
    if Truthy(Get(metadata, "topic", VNone)) {
      cm := cm["topic" := metadata["topic"]];
    }
    ghost var fixed := cm;
    assert fixed == FixedFields(docId, metadata, i);
    var todo := metadata.Keys;
    ghost var done: set<string> := {};
    while todo != {}
      invariant todo <= metadata.Keys && done <= metadata.Keys
      invariant done == metadata.Keys - todo
      invariant cm == fixed + CustomFields(metadata, done)
      decreases todo
    {
      var k :| k in todo;
      CustomFieldsAdd(metadata, done, k);
      if !Reserved(k) && metadata[k] != VNone {
        UnionUpdate(fixed, CustomFields(metadata, done), k, metadata[k]);
        cm := cm[k := metadata[k]];
      }
      todo := todo - {k};
      done := done + {k};
    }
    assert done == metadata.Keys;
  }

  lemma CustomFieldsAdd(metadata: Metadata, done: set<string>, k: string)
    requires k in metadata
    ensures CustomFields(metadata, done + {k})
            == if !Reserved(k) && metadata[k] != VNone
               then CustomFields(metadata, done)[k := metadata[k]]
               else CustomFields(metadata, done)
  {
  }

  lemma UnionUpdate<K, V>(a: map<K, V>, b: map<K, V>, k: K, v: V)
    ensures (a + b)[k := v] == a + b[k := v]
  {
  }

  /** What every chunk's metadata holds: the document id, the index, the caller's
      `source` when the key is present (whatever its value) and `direct_input`
      otherwise, `date` and `topic` exactly when truthy, and every other caller
      field exactly when it is not None, copied unchanged. */
  lemma {:induction false} ChunkMetadataFields(docId: string, metadata: Metadata, i: nat)
    ensures var cm := ChunkMetadata(docId, metadata, i);
      && "doc_id" in cm && cm["doc_id"] == VStr(docId)
      && "chunk_index" in cm && cm["chunk_index"] == VInt(i)
      && "source" in cm
      && cm["source"] == (if "source" in metadata then metadata["source"] else VStr(DefaultSource))
      && ("date" in cm <==> "date" in metadata && Truthy(metadata["date"]))
      && ("date" in cm ==> cm["date"] == metadata["date"])
      && ("topic" in cm <==> "topic" in metadata && Truthy(metadata["topic"]))
      && ("topic" in cm ==> cm["topic"] == metadata["topic"])
      && (forall k :: k in cm && !Reserved(k) <==> k in metadata && !Reserved(k) && metadata[k] != VNone)
      && (forall k :: k in cm && !Reserved(k) ==> cm[k] == metadata[k])
  {
    var custom := CustomFields(metadata, metadata.Keys);
    assert "doc_id" !in custom && "chunk_index" !in custom && "source" !in custom;
    assert "date" !in custom && "topic" !in custom;
  }

  /** The chunk metadatas of one document differ only in `chunk_index`. */
  lemma {:induction false} ChunkMetadataIndexOnly(docId: string, metadata: Metadata, i: nat, j: nat)
    ensures ChunkMetadata(docId, metadata, i)["chunk_index" := VInt(j)] == ChunkMetadata(docId, metadata, j)
  {
    var custom := CustomFields(metadata, metadata.Keys);
    assert "chunk_index" !in custom;
    assert FixedFields(docId, metadata, i)["chunk_index" := VInt(j)] == FixedFields(docId, metadata, j);
  }

  // ---------------------------------------------------------------------
  // ingest_text
  // ---------------------------------------------------------------------

  function TotalChars(chunks: seq<string>): nat
  {
    if chunks == [] then 0 else |chunks[0]| + TotalChars(chunks[1..])
  }

  /** What one ingestion returns and which batches it writes to the store. */
  datatype Effect = Effect(result: Result<IngestResult, Exception>, written: seq<Batch>)

  /** `ingest_text(text, metadata)` where `metadata` is the caller's dictionary (`{}` for None). */
  function TextIngestion(settings: Settings, embed: seq<string> -> seq<Vector>, dimension: nat,
                         uuidHex: string, now: string, text: string, metadata: Metadata): Effect
  {
    var md := WithDate(metadata, now);
    var chunks := Chunker.Chunk(text, settings.chunkSize, settings.chunkOverlap);
    var docId := DocId(uuidHex);
    if chunks == [] then Effect(Failure(ValueError(NoChunksMessage)), [])
    else
      var ids := ChunkIds(docId, |chunks|);
      Effect(Success(IngestResult(true, SuccessMessage, docId, |chunks|, TotalChars(chunks) / 4, dimension, ids)),
             [Batch(chunks, embed(chunks), ChunkMetadatas(docId, md, |chunks|), ids)])
  }

  /** `IngestionService.ingest_text` */
  method IngestText(store: VectorStore, settings: Settings, embed: seq<string> -> seq<Vector>, dimension: nat,
                    uuidHex: string, now: string, text: string, metadata: Dict?)
    returns (result: Result<IngestResult, Exception>)
    modifies store, metadata
    ensures metadata != null ==> metadata.entries == WithDate(old(metadata.entries), now)
    ensures var e := TextIngestion(settings, embed, dimension, uuidHex, now, text,
                                   if metadata == null then map[] else old(metadata.entries));
      result == e.result && store.batches == old(store.batches) + e.written
  {
    var docId := DocId(uuidHex);
    var md: Metadata := if metadata == null then map[] else metadata.entries;
    if "date" !in md {
      md := md["date" := VStr(now)];
    }
    assert md == WithDate(if metadata == null then map[] else metadata.entries, now);
    if metadata != null {
      metadata.entries := md;
    }
    assert metadata != null ==> metadata.entries == WithDate(old(metadata.entries), now);
    var chunks := Chunker.ChunkText(text, settings.chunkSize, settings.chunkOverlap);
    if chunks == [] {
      return Failure(ValueError(NoChunksMessage));
    }
    var embeddings := embed(chunks);
    var ids, metadatas := ChunkRecords(docId, md, |chunks|);
    var stored := store.AddDocuments(chunks, embeddings, metadatas, ids);
    result := Success(IngestResult(true, SuccessMessage, docId, |chunks|, TotalChars(chunks) / 4, dimension, stored));
  }

  /** The loop over the chunks: the id and the metadata of each, by index. */
  method ChunkRecords(docId: string, metadata: Metadata, n: nat) returns (ids: seq<string>, metadatas: seq<Metadata>)
    ensures ids == ChunkIds(docId, n)
    ensures metadatas == ChunkMetadatas(docId, metadata, n)
  {
    ids := [];
    metadatas := [];
    var i := 0;
    while i < n
      invariant 0 <= i <= n
      invariant |ids| == i && |metadatas| == i
      invariant forall j :: 0 <= j < i ==> ids[j] == ChunkId(docId, j)
      invariant forall j :: 0 <= j < i ==> metadatas[j] == ChunkMetadata(docId, metadata, j)
    {
      ids := ids + [ChunkId(docId, i)];
      var cm := BuildChunkMetadata(docId, metadata, i);
      metadatas := metadatas + [cm];
      i := i + 1;
    }
  }

  /** Zero chunks is the only failure the code raises itself (the embedding model and
      the store are total here); it raises the ValueError before anything is written.
      Otherwise exactly one batch is written: the chunks in order with their
      embeddings, the ids that are returned, and one metadata per chunk carrying its
      index; the token estimate is the chunks' total length divided by four. */
  lemma {:induction false} TextIngestionWrites(settings: Settings, embed: seq<string> -> seq<Vector>, dimension: nat,
                                               uuidHex: string, now: string, text: string, metadata: Metadata)
    ensures var e := TextIngestion(settings, embed, dimension, uuidHex, now, text, metadata);
      var chunks := Chunker.Chunk(text, settings.chunkSize, settings.chunkOverlap);
      && (e.result.Failure? <==> chunks == [])
      && (e.result.Failure? ==> e.result.error == ValueError(NoChunksMessage) && e.written == [])
      && (e.result.Success? ==>
            var r := e.result.value;
            && |e.written| == 1
            && e.written[0].texts == chunks
            && e.written[0].embeddings == embed(chunks)
            && e.written[0].ids == r.chunkIds
            && |r.chunkIds| == |chunks| == |e.written[0].metadatas| == r.numChunks
            && r.docId == DocId(uuidHex)
            && (forall i :: 0 <= i < |chunks| ==> r.chunkIds[i] == r.docId + "_chunk_" + NatToString(i))
            && (forall i :: 0 <= i < |chunks| ==>
                  "chunk_index" in e.written[0].metadatas[i]
                  && e.written[0].metadatas[i]["chunk_index"] == VInt(i)
                  && "doc_id" in e.written[0].metadatas[i]
                  && e.written[0].metadatas[i]["doc_id"] == VStr(r.docId))
            && 4 * r.numTokens <= TotalChars(chunks) < 4 * r.numTokens + 4)
  {
    var e := TextIngestion(settings, embed, dimension, uuidHex, now, text, metadata);
    var chunks := Chunker.Chunk(text, settings.chunkSize, settings.chunkOverlap);
    if chunks != [] {
      var md := WithDate(metadata, now);
      var docId := DocId(uuidHex);
      forall i | 0 <= i < |chunks|
        ensures var m := e.written[0].metadatas[i];
          "chunk_index" in m && m["chunk_index"] == VInt(i) && "doc_id" in m && m["doc_id"] == VStr(docId)
      {
        ChunkMetadataFields(docId, md, i);
      }
    }
  }

  /** With `chunk_size >= 1`, ingestion fails, writing nothing, exactly when the
      text is empty or all whitespace. */
  lemma {:induction false} BlankTextRejected(settings: Settings, embed: seq<string> -> seq<Vector>, dimension: nat,
                                             uuidHex: string, now: string, text: string, metadata: Metadata)
    requires settings.chunkSize >= 1
    ensures var e := TextIngestion(settings, embed, dimension, uuidHex, now, text, metadata);
      (e.written == [] && e.result.Failure?) <==> forall i :: 0 <= i < |text| ==> Chunker.IsWhitespace(text[i])
  {
    Chunker.ChunksEmptyIff(text, settings.chunkSize, settings.chunkOverlap);
  }

  /** A caller `date` of None is kept in the caller's dictionary (it is present, so
      not defaulted) but left out of every chunk, while an absent `date` is defaulted
      to the current time and stored with every chunk. */
  lemma {:induction false} DateDefaulting(docId: string, metadata: Metadata, now: string, i: nat)
    ensures "date" in metadata && metadata["date"] == VNone ==>
              WithDate(metadata, now) == metadata && "date" !in ChunkMetadata(docId, WithDate(metadata, now), i)
    ensures "date" !in metadata && now != "" ==>
              var cm := ChunkMetadata(docId, WithDate(metadata, now), i);
              "date" in cm && cm["date"] == VStr(now)
  {
    ChunkMetadataFields(docId, WithDate(metadata, now), i);
  }

  // ---------------------------------------------------------------------
  // ingest_pdf
  // ---------------------------------------------------------------------

  /** `os.path.isabs` (POSIX). */
  predicate IsAbs(p: string)
  {
    |p| > 0 && p[0] == '/'
  }

  /** `os.path.join(a, b)` for two components (POSIX). */
  function PathJoin(a: string, b: string): string
  {
    if IsAbs(b) then b
    else if a == "" || a[|a| - 1] == '/' then a + b
    else a + "/" + b
  }

  /** The path `ingest_pdf` opens: absolute paths as given, others under the upload directory. */
  function ResolvePath(uploadDir: string, filePath: string): string
  {
    if IsAbs(filePath) then filePath else PathJoin(uploadDir, filePath)
  }

  /** `os.path.basename` (POSIX): what follows the last `/`. */
  function BaseName(p: string): (b: string)
    ensures |b| <= |p|
  {
    if p == [] || p[|p| - 1] == '/' then [] else BaseName(p[..|p| - 1]) + [p[|p| - 1]]
  }

  /** The base name is the longest suffix without a `/`. */
  lemma {:induction false} BaseNameSuffix(p: string)
    ensures var b := BaseName(p);
      && b == p[|p| - |b|..]
      && (forall i :: 0 <= i < |b| ==> b[i] != '/')
      && (|b| < |p| ==> p[|p| - |b| - 1] == '/')
    decreases |p|
  {
    if p != [] && p[|p| - 1] != '/' {
      var n := |p|;
      var q := p[..n - 1];
      BaseNameSuffix(q);
      var c := BaseName(q);
      var b := c + [p[n - 1]];
      assert BaseName(p) == b;
      assert c == q[|q| - |c|..];
      assert b == p[n - |b|..] by {
        assert q[|q| - |c|..] + [p[n - 1]] == p[n - |b|..];
      }
      assert forall i :: 0 <= i < |c| ==> b[i] == c[i];
      if |b| < n {
        assert p[n - |b| - 1] == q[|q| - |c| - 1];
      }
    }
  }

  lemma {:induction false} BaseNameAfterSlash(prefix: string, name: string)
    requires prefix == [] || prefix[|prefix| - 1] == '/'
    requires forall i :: 0 <= i < |name| ==> name[i] != '/'
    ensures BaseName(prefix + name) == name
    decreases |name|
  {
    if name == [] {
      assert prefix + name == prefix;
    } else {
      var n := |name|;
      var p := prefix + name;
      assert p[|p| - 1] == name[n - 1];
      assert p[..|p| - 1] == prefix + name[..n - 1];
      BaseNameAfterSlash(prefix, name[..n - 1]);
      assert name == name[..n - 1] + [name[n - 1]];
    }
  }

  /** A file name with no `/`, placed in a directory, is its own base name. */
  lemma {:induction false} BaseNameOfJoin(dir: string, name: string)
    requires name != [] && forall i :: 0 <= i < |name| ==> name[i] != '/'
    ensures BaseName(PathJoin(dir, name)) == name
  {
    if dir == "" || dir[|dir| - 1] == '/' {
      BaseNameAfterSlash(dir, name);
    } else {
      assert PathJoin(dir, name) == (dir + "/") + name;
      BaseNameAfterSlash(dir + "/", name);
    }
  }

  /** `_extract_text_from_pdf` given each page's extracted text: the non-empty
      pages joined by blank lines. */
  function NonEmptyPages(pages: seq<string>): (r: seq<string>)
    ensures forall i :: 0 <= i < |r| ==> r[i] != ""
  {
    if pages == [] then []
    else (if pages[0] != "" then [pages[0]] else []) + NonEmptyPages(pages[1..])
  }

  function ExtractedText(pages: seq<string>): string
  {
    Join("\n\n", NonEmptyPages(pages))
  }

  const ExtractErrorPrefix: string := "Error extracting text from PDF: "
  const NoPdfTextMessage: string := "No text could be extracted from the PDF"

  /** `ingest_pdf(file_path, metadata)` where `fileExists` is `os.path.exists`, `readPdf`
      gives the pages' texts or the reader's error message, and `metadata` is the
      caller's dictionary (`{}` for None). */
  function PdfIngestion(settings: Settings, embed: seq<string> -> seq<Vector>, dimension: nat,
                        uuidHex: string, now: string, fileExists: string -> bool,
                        readPdf: string -> Result<seq<string>, string>, filePath: string,
                        metadata: Metadata): Effect
  {
    var path := ResolvePath(settings.pdfUploadPath, filePath);
    if !fileExists(path) then Effect(Failure(FileNotFoundError("PDF file not found: " + path)), [])
    else match readPdf(path)
      case Failure(m) => Effect(Failure(ValueError(ExtractErrorPrefix + m)), [])
      case Success(pages) =>
        var text := ExtractedText(pages);
        if Chunker.Strip(text) == [] then Effect(Failure(ValueError(NoPdfTextMessage)), [])
        else TextIngestion(settings, embed, dimension, uuidHex, now, text,
                           metadata["source" := VStr(BaseName(path))])
  }

  /** `IngestionService.ingest_pdf`; the caller's dictionary is changed only once the text is there. */
  method IngestPdf(store: VectorStore, settings: Settings, embed: seq<string> -> seq<Vector>, dimension: nat,
                   uuidHex: string, now: string, fileExists: string -> bool,
                   readPdf: string -> Result<seq<string>, string>, filePath: string, metadata: Dict?)
    returns (result: Result<IngestResult, Exception>)
    modifies store, metadata
    ensures var e := PdfIngestion(settings, embed, dimension, uuidHex, now, fileExists, readPdf, filePath,
                                  if metadata == null then map[] else old(metadata.entries));
      result == e.result && store.batches == old(store.batches) + e.written
    ensures metadata != null ==>
      var path := ResolvePath(settings.pdfUploadPath, filePath);
      metadata.entries ==
        if !fileExists(path) || readPdf(path).Failure? || Chunker.Strip(ExtractedText(readPdf(path).value)) == []
        then old(metadata.entries)
        else WithDate(old(metadata.entries)["source" := VStr(BaseName(path))], now)
  {
    var path := ResolvePath(settings.pdfUploadPath, filePath);
    if !fileExists(path) {
      return Failure(FileNotFoundError("PDF file not found: " + path));
    }
    var read := readPdf(path);
    if read.Failure? {
      return Failure(ValueError(ExtractErrorPrefix + read.error));
    }
    var text := ExtractedText(read.value);
    if Chunker.Strip(text) == [] {
      return Failure(ValueError(NoPdfTextMessage));
    }
    var md := metadata;
    if md == null {
      md := new Dict(map[]);
    }
    md.entries := md.entries["source" := VStr(BaseName(path))];
    result := IngestText(store, settings, embed, dimension, uuidHex, now, text, md);
  }

  /** A PDF that is found and has text is stored with the file's base name as the
      `source` of every chunk, whatever `source` the caller gave. */
  lemma {:induction false} PdfSourceIsFileName(settings: Settings, embed: seq<string> -> seq<Vector>, dimension: nat,
                                               uuidHex: string, now: string, fileExists: string -> bool,
                                               readPdf: string -> Result<seq<string>, string>, filePath: string,
                                               metadata: Metadata)
    ensures var e := PdfIngestion(settings, embed, dimension, uuidHex, now, fileExists, readPdf, filePath, metadata);
      var path := ResolvePath(settings.pdfUploadPath, filePath);
      forall b, i :: b in e.written && 0 <= i < |b.metadatas| ==>
        "source" in b.metadatas[i] && b.metadatas[i]["source"] == VStr(BaseName(path))
  {
    var e := PdfIngestion(settings, embed, dimension, uuidHex, now, fileExists, readPdf, filePath, metadata);
    var path := ResolvePath(settings.pdfUploadPath, filePath);
    if e.written != [] {
      var text := ExtractedText(readPdf(path).value);
      var md := WithDate(metadata["source" := VStr(BaseName(path))], now);
      var docId := DocId(uuidHex);
      forall b, i | b in e.written && 0 <= i < |b.metadatas|
        ensures "source" in b.metadatas[i] && b.metadatas[i]["source"] == VStr(BaseName(path))
      {
        ChunkMetadataFields(docId, md, i);
      }
    }
  }

  /** Every failure of `ingest_pdf` leaves the store alone: a missing file gives the
      FileNotFoundError, an unreadable PDF the extraction ValueError, and the
      no-text ValueError comes exactly when the extracted text is all whitespace. */
  lemma {:induction false} PdfFailures(settings: Settings, embed: seq<string> -> seq<Vector>, dimension: nat,
                                       uuidHex: string, now: string, fileExists: string -> bool,
                                       readPdf: string -> Result<seq<string>, string>, filePath: string,
                                       metadata: Metadata)
    ensures var e := PdfIngestion(settings, embed, dimension, uuidHex, now, fileExists, readPdf, filePath, metadata);
      var path := ResolvePath(settings.pdfUploadPath, filePath);
      && (e.result.Failure? <==> e.written == [])
      && (!fileExists(path) ==> e.result == Failure(FileNotFoundError("PDF file not found: " + path)))
      && (fileExists(path) && readPdf(path).Failure? ==>
            e.result == Failure(ValueError(ExtractErrorPrefix + readPdf(path).error)))
      && (fileExists(path) && readPdf(path).Success? ==>
            var text := ExtractedText(readPdf(path).value);
            (e.result == Failure(ValueError(NoPdfTextMessage))
             <==> forall i :: 0 <= i < |text| ==> Chunker.IsWhitespace(text[i])))
  {
    var path := ResolvePath(settings.pdfUploadPath, filePath);
    if fileExists(path) && readPdf(path).Success? {
      var pages := readPdf(path).value;
      var text := ExtractedText(pages);
      Chunker.StripFacts(text);
      if Chunker.Strip(text) != [] {
        TextIngestionWrites(settings, embed, dimension, uuidHex, now, text,
                            metadata["source" := VStr(BaseName(path))]);
        assert NoChunksMessage[3] != NoPdfTextMessage[3];
      }
    }
  }

  /** A PDF whose pages all give "" has no text. */
  lemma {:induction false} NoPagesNoText(pages: seq<string>)
    requires forall p :: p in pages ==> p == ""
    ensures ExtractedText(pages) == ""
    decreases |pages|
  {
    if pages != [] {
      assert pages[0] in pages;
      assert forall p :: p in pages[1..] ==> p in pages;
      NoPagesNoText(pages[1..]);
    }
  }
}
