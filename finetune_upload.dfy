/**
 * The upload handler of the fine-tune helper (`POST /upload` in
 * `backend/finetune_stack/main.py`): the extension picks the extractor, the text is cut
 * into consecutive 500-character slices, and every slice is stored, blank ones included.
 */
module FinetuneUpload {
  import opened Results
  import opened PyStr
  import opened Stores
  import opened Extraction
  import opened CharWindows

  const SliceSize: nat := 500
  const UnsupportedType := "Unsupported file type"

  /** The JSON response: an error message, or the success message. */
  datatype Response = Error(message: string) | Processed(message: string)

  /** The response together with the chunks the handler stored, in order. */
  datatype Upload = Upload(response: Response, chunks: seq<string>)

  /**
   * The extension dispatch: `.pdf` is matched as written (a `.PDF` file is refused), while
   * the image test lower-cases the name and knows only `.png` and `.jpg`.
   */
  function KindOf(filename: string): (kind: Option<FileKind>)
    ensures kind == Some(Pdf) <==> EndsWith(filename, ".pdf")
    ensures kind == Some(Image) <==>
      !EndsWith(filename, ".pdf") && (EndsWith(Lower(filename), ".png") || EndsWith(Lower(filename), ".jpg"))
  {
    if EndsWith(filename, ".pdf") then Some(Pdf)
    else if EndsWith(Lower(filename), ".png") || EndsWith(Lower(filename), ".jpg") then Some(Image)
    else None
  }

  /** `[text[i:i+500] for i in range(0, len(text), 500)]`. */
  function Slices(text: string): seq<string> {
    Windows(text, SliceSize, SliceSize)
  }

  /** What the handler answers and stores for `filename`, whose bytes `extract` reads. */
  function UploadOf(filename: string, extract: Extractor): Upload {
    match KindOf(filename)
    case None => Upload(Error(UnsupportedType), [])
    case Some(kind) =>
      match extract(kind)
      case Failure(e) => Upload(Error(e), [])
      case Success(text) => Upload(Processed(filename + " uploaded and processed successfully"), Slices(text))
  }

  /** `upload_file`: the slices are computed, then each is embedded and stored in turn. */
  method UploadFile(filename: string, extract: Extractor, embed: string -> Embedding, local: LocalStore)
    returns (r: Response)
    modifies local
    ensures r == UploadOf(filename, extract).response
    ensures local.rows == old(local.rows) + ChunkRows(filename, UploadOf(filename, extract).chunks, embed)
  {
    var kind := KindOf(filename);
    if kind.None? {
      return Error(UnsupportedType);
    }
    var extracted := extract(kind.value);
    if extracted.Failure? {
      return Error(extracted.error);
    }
    var chunks := Slices(extracted.value);
    StoreChunks(filename, chunks, embed, local);
    r := Processed(filename + " uploaded and processed successfully");
  }

  /**
   * The slices rejoined give back the text exactly; every slice but the last holds 500
   * characters, none holds more, and an empty text gives none.
   */
  lemma SlicesSpec(text: string)
    ensures Concat(Slices(text)) == text
    ensures FullButLast(Slices(text), SliceSize)
    ensures forall k :: 0 <= k < |Slices(text)| ==> 0 < |Slices(text)[k]| <= SliceSize
    ensures Slices(text) == [] <==> text == []
  {
    WindowsConcat(text, SliceSize, 0);
    WindowsFull(text, SliceSize, 0);
    forall k | 0 <= k < |Slices(text)| ensures 0 < |Slices(text)[k]| {
      WindowAt(text, SliceSize, SliceSize, 0, k);
    }
  }

  /** Slice `k` starts at character `500 * k`. */
  lemma SliceAt(text: string, k: nat)
    requires k < |Slices(text)|
    ensures k * SliceSize < |text|
    ensures Slices(text)[k] == text[k * SliceSize..Min(k * SliceSize + SliceSize, |text|)]
  {
    WindowAt(text, SliceSize, SliceSize, 0, k);
  }

  /** Every slice is stored, whitespace-only ones included, and nothing on an error. */
  lemma UploadStoresSlices(filename: string, extract: Extractor)
    ensures var u := UploadOf(filename, extract);
      && (u.response.Error? ==> u.chunks == [])
      && (u.response.Processed? ==> Concat(u.chunks) == extract(KindOf(filename).value).value)
  {
    var u := UploadOf(filename, extract);
    if u.response.Processed? {
      SlicesSpec(extract(KindOf(filename).value).value);
    }
  }
}
