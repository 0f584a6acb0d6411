/** The RAG settings the core reads (app/core/config.py), with their defaults. */
module Config {

  datatype Settings = Settings(
    chunkSize: nat,
    chunkOverlap: int,
    topKResults: int,
    similarityThreshold: real,
    pdfUploadPath: string)

  const Defaults: Settings := Settings(500, 50, 5, 0.5, "./data/pdfs")
}
