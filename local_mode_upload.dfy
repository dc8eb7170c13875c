/**
 * The upload route of the local mode (`POST /local/upload` in
 * `backend/routers/local_mode.py`): the extension picks the extractor, blank text is
 * refused, and the text is cut into 600-character windows every 480 characters, each
 * stripped and, when not empty, embedded and stored at once.
 */
module LocalModeUpload {
  import opened Results
  import opened PyStr
  import opened Stores
  import opened Extraction
  import opened CharWindows

  const ChunkSize: nat := 600
  const Overlap: nat := 120
  /** `chunk_size - overlap`: the distance between two window starts. */
  const Step: nat := ChunkSize - Overlap

  const DefaultFilename := "document"
  const UnsupportedType := "Unsupported file type"
  const NoText := "Unable to extract text"

  /** The JSON response: an error, or `{"status": "ok", "chunks_written": str(n)}`. */
  datatype Response = Error(message: string) | Written(status: string, chunksWritten: string)

  /**
   * The response and the chunks stored, in order; a `Failure` is an exception of the
   * extractor, which the route does not catch.
   */
  datatype Upload = Upload(response: Result<Response, string>, chunks: seq<string>)

  /** `file.filename or "document"`: a missing or empty name becomes `"document"`. */
  function FilenameOf(filename: Option<string>): (name: string)
    ensures name != []
    ensures filename.Some? && filename.value != [] ==> name == filename.value
  {
    if filename.Some? && filename.value != [] then filename.value else DefaultFilename
  }

  /** What the route answers and stores for the upload, whose bytes `extract` reads. */
  function UploadOf(filename: Option<string>, extract: Extractor): Upload {
    var name := FilenameOf(filename);
    match KindByExtension(name)
    case None => Upload(Success(Error(UnsupportedType)), [])
    case Some(kind) =>
      match extract(kind)
      case Failure(e) => Upload(Failure(e), [])
      case Success(text) =>
        if AllSpace(text) then Upload(Success(Error(NoText)), [])
        else
          var chunks := StrippedChunks(text, ChunkSize, Step);
          Upload(Success(Written("ok", NatToString(|chunks|))), chunks)
  }

  /**
   * The chunk-and-store loop: each window stripped and, when not empty, kept and written
   * to the local store straight away.
   */
  method ChunkAndStore(filename: string, text: string, embed: string -> Embedding, local: LocalStore)
    returns (chunks: seq<string>)
    modifies local
    ensures chunks == StrippedChunks(text, ChunkSize, Step)
    ensures local.rows == old(local.rows) + ChunkRows(filename, chunks, embed)
  {
    chunks := [];
    var i := 0;
    while i < |text|
      invariant chunks + StrippedFrom(text, ChunkSize, Step, i) == StrippedChunks(text, ChunkSize, Step)
      invariant local.rows == old(local.rows) + ChunkRows(filename, chunks, embed)
      decreases |text| - i
    {
      StrippedStep(text, ChunkSize, Step, i, chunks);
      var kept := StoreWindow(filename, text, i, embed, local);
      ChunkRowsAppend(filename, chunks, kept, embed);
      Associative(old(local.rows), ChunkRows(filename, chunks, embed), ChunkRows(filename, kept, embed));
      chunks := chunks + kept;
      i := i + Step;
    }
    assert StrippedFrom(text, ChunkSize, Step, i) == [];
  }

  /** One turn of the loop: the window at `i` stripped and, unless empty, stored. */
  method StoreWindow(filename: string, text: string, i: nat, embed: string -> Embedding, local: LocalStore)
    returns (kept: seq<string>)
    requires i < |text|
    modifies local
    ensures kept == ChunkAt(text, ChunkSize, i)
    ensures local.rows == old(local.rows) + ChunkRows(filename, kept, embed)
  {
    var chunk := Strip(text[i..Min(i + ChunkSize, |text|)]);
    if chunk != [] {
      kept := [chunk];
      local.AddChunk(filename, chunk, embed(chunk));
    } else {
      kept := [];
    }
  }

  /** `upload_to_local_store`. */
  method UploadToLocalStore(filename: Option<string>, extract: Extractor, embed: string -> Embedding,
                            local: LocalStore)
    returns (r: Result<Response, string>)
    modifies local
    ensures r == UploadOf(filename, extract).response
    ensures local.rows == old(local.rows) + ChunkRows(FilenameOf(filename), UploadOf(filename, extract).chunks, embed)
  {
    var name := FilenameOf(filename);
    var kind := KindByExtension(name);
    if kind.None? {
      return Success(Error(UnsupportedType));
    }
    var text :- extract(kind.value);
    if AllSpace(text) {
      return Success(Error(NoText));
    }
    var chunks := ChunkAndStore(name, text, embed, local);
    r := Success(Written("ok", NatToString(|chunks|)));
  }

  /**
   * Nothing is stored unless the route answers `"ok"`; then it reports, in decimal, as many
   * chunks as it stored, at least one, and each is non-empty, stripped and at most 600
   * characters long.
   */
  lemma {:induction false} UploadStoresChunks(filename: Option<string>, extract: Extractor)
    ensures var u := UploadOf(filename, extract);
      && (!(u.response.Success? && u.response.value.Written?) ==> u.chunks == [])
      && (u.response.Success? && u.response.value.Written? ==>
            u.response.value.chunksWritten == NatToString(|u.chunks|) && u.chunks != [])
      && (forall k :: 0 <= k < |u.chunks| ==> u.chunks[k] != [] && Stripped(u.chunks[k]) && |u.chunks[k]| <= ChunkSize)
  {
    var u := UploadOf(filename, extract);
    if u.response.Success? && u.response.value.Written? {
      var text := extract(KindByExtension(FilenameOf(filename)).value).value;
      StrippedNotEmpty(text, ChunkSize, Step);
    }
  }
}
