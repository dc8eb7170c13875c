/**
 * The upload handler of the local stack (`POST /upload` in `backend/local_stack/main.py`):
 * it picks the extractor by the file's extension, refuses text that is blank, cuts the
 * text into 800-character windows every 700 characters, strips them, drops the empty
 * ones and stores the rest in the local store.
 */
module LocalStackUpload {
  import opened Results
  import opened PyStr
  import opened Stores
  import opened Extraction
  import opened CharWindows

  const ChunkSize: nat := 800
  const Overlap: nat := 100
  /** `chunk_size - overlap`: the distance between two window starts. */
  const Step: nat := ChunkSize - Overlap

  const UnsupportedType := "Unsupported file type. Please upload PDF or image (PNG/JPG)"
  const NoText := "No text could be extracted from the file"
  const Failed := "Processing failed: "

  /** The JSON response: an error, or the success message with its details. */
  datatype Response =
    | Error(message: string)
    | Uploaded(message: string, filename: string, textLength: nat, chunksCreated: nat)

  /** The response together with the chunks the handler stored, in order. */
  datatype Upload = Upload(response: Response, chunks: seq<string>)

  /** What the handler answers and stores for `filename`, whose bytes `extract` reads. */
  function UploadOf(filename: string, extract: Extractor): Upload {
    match KindByExtension(filename)
    case None => Upload(Error(UnsupportedType), [])
    case Some(kind) =>
      match extract(kind)
      case Failure(e) => Upload(Error(Failed + e), [])
      case Success(text) =>
        if AllSpace(text) then Upload(Error(NoText), [])
        else
          var chunks := StrippedChunks(text, ChunkSize, Step);
          Upload(Uploaded("✓ " + filename + " uploaded successfully!", filename, |text|, |chunks|), chunks)
  }

  /** The chunking loop: every window stripped, the empty ones skipped. */
  method ChunkText(text: string) returns (chunks: seq<string>)
    ensures chunks == StrippedChunks(text, ChunkSize, Step)
  {
    chunks := [];
    var i := 0;
    while i < |text|
      invariant chunks + StrippedFrom(text, ChunkSize, Step, i) == StrippedChunks(text, ChunkSize, Step)
      decreases |text| - i
    {
      StrippedStep(text, ChunkSize, Step, i, chunks);
      var kept := TakeWindow(text, i);
      chunks := chunks + kept;
      i := i + Step;
    }
    assert StrippedFrom(text, ChunkSize, Step, i) == [];
  }

  /**
   * One turn of the loop: the window at `i`, stripped, unless that leaves nothing. This is
   * `CharWindows.ChunkAt` computed in the method, so the loop body stays small to verify.
   */
  method TakeWindow(text: string, i: nat) returns (kept: seq<string>)
    requires i < |text|
    ensures kept == ChunkAt(text, ChunkSize, i)
  {
    var chunk := Strip(text[i..Min(i + ChunkSize, |text|)]);
    if chunk != [] {
      kept := [chunk];
    } else {
      kept := [];
    }
  }

  /** `upload_file`: the response, after the chunks were stored one row each. */
  method UploadFile(filename: string, extract: Extractor, embed: string -> Embedding, local: LocalStore)
    returns (r: Response)
    modifies local
    ensures r == UploadOf(filename, extract).response
    ensures local.rows == old(local.rows) + ChunkRows(filename, UploadOf(filename, extract).chunks, embed)
  {
    var kind := KindByExtension(filename);
    if kind.None? {
      return Error(UnsupportedType);
    }
    var extracted := extract(kind.value);
    if extracted.Failure? {
      return Error(Failed + extracted.error);
    }
    var text := extracted.value;
    if AllSpace(text) {
      return Error(NoText);
    }
    var chunks := ChunkText(text);
    StoreChunks(filename, chunks, embed, local);
    r := Uploaded("✓ " + filename + " uploaded successfully!", filename, |text|, |chunks|);
  }

  /**
   * Nothing is stored unless the upload succeeds; a success reports as many chunks as were
   * stored, and each stored chunk is non-empty, stripped and at most 800 characters long.
   */
  lemma {:induction false} UploadStoresChunks(filename: string, extract: Extractor)
    ensures var u := UploadOf(filename, extract);
      && (u.response.Error? ==> u.chunks == [])
      && (u.response.Uploaded? ==> u.response.chunksCreated == |u.chunks| && u.chunks != [])
      && (forall k :: 0 <= k < |u.chunks| ==> u.chunks[k] != [] && Stripped(u.chunks[k]) && |u.chunks[k]| <= ChunkSize)
  {
    var u := UploadOf(filename, extract);
    if u.response.Uploaded? {
      var text := extract(KindByExtension(filename).value).value;
      StrippedNotEmpty(text, ChunkSize, Step);
    }
  }

  /** Blank text is refused before anything is chunked. */
  lemma BlankIsRefused(filename: string, extract: Extractor)
    requires KindByExtension(filename).Some? && extract(KindByExtension(filename).value).Success?
    requires AllSpace(extract(KindByExtension(filename).value).value)
    ensures UploadOf(filename, extract) == Upload(Error(NoText), [])
  {
  }
}
