# SAHAYAK_AI retrieval core in Dafny

SAHAYAK_AI is a retrieval-augmented question-answering backend. Users upload PDFs,
images and plain text. The backend extracts and cleans the text and cuts it into
chunks. It embeds each chunk and stores it in a local SQLite/faiss store, a remote
Qdrant collection, or both. Questions are answered from the chunks nearest to them.

This project models the deterministic core of that backend and proves what it
promises:

- **PDF text cleaning** (`PdfCleaning`). Repeated headers and footers are detected
  with the `max(2, ceil(0.6 n))` threshold and popped from each page. Lines are
  sanitised and noise lines dropped. The pages are joined and the whitespace
  normalised.
- **Word chunking** (`WordChunking`). `ingest_text` and `chunk_text`: overlapping
  word windows with stride `max(1, chunk_size - overlap)`.
- **Vector service** (`VectorService`):
  - backend selection for the targets `"qdrant"`, `"local"` and `"auto"`;
  - per-segment ingestion into both stores;
  - the merged search: dedupe by id keeping the strictly higher score, a stable
    descending sort, then `top_k`;
  - `rag_answer` and the fallback of `summarize_text`.
- **Duplicate detection** (`Duplicates`). The md5 test and the cosine filter over
  search candidates.
- **Local answer assembly** (`RagEngine`). `answer_question` of the local stack.
- **The three upload handlers' chunk loops**, each with its extension dispatch and
  blank-text guard:
  - `LocalStackUpload`: 800-character windows every 700 characters;
  - `LocalModeUpload`: 600-character windows every 480 characters;
  - `FinetuneUpload`: plain 500-character slices.

Shared modules:

- `PyStr` models the Python `str`/`list` builtins the code relies on: `strip`,
  `split`, `join`, `lower`, `endswith`, slicing with clamped and negative bounds,
  indexing with negative indices, and `str(int)`.
- `PySorted` models `sorted(..., reverse=True)` as a stable insertion sort.
- `CharWindows` holds the character windows shared by the upload handlers.
- `Stores` holds the two stores:
  - the local store is a class with an append-only `rows` sequence;
  - the remote store is a class with an `available` flag and the stored `points`.
- `Results` holds `Option` and `Result`. A Python exception is a `Failure` carrying
  its message.

The embedder, summariser, md5, vector norm, Qdrant network answers, point ids and
faiss neighbour lists are parameters of the operations that use them.

Stateful code follows the source's form:

- `DetectRepeatedEdges`, `CleanPageText`, `ChunkText` and `MergeHits` are loops.
  `SearchLocal`, `FilterCandidates` and the upload loops are too.
- Each loop is proved equal to a specification function.
- The properties are proved about those functions.
- Methods that write to a store state the store's whole new contents in terms of
  its old contents.

## Model

| member | source | states |
|---|---|---|
| PdfCleaning.Threshold | backend/ingestion/pdf.py:61 | the threshold is `max(2, ceil(0.6 n))` in integers: at least 2, at least `3n/5`, and the least such value when above 2 |
| PdfCleaning.PrepareLinesShape | backend/ingestion/pdf.py:92-93 | every prepared line is non-empty and has no surrounding whitespace |
| PdfCleaning.CollapseSpacesShape | backend/ingestion/pdf.py:97 | `\s+ -> " "` leaves no whitespace except single spaces, and keeps whether the text starts with whitespace |
| PdfCleaning.CountsStep | backend/ingestion/pdf.py:55-60 | tallying one more page keeps each counter entry equal to the number of pages with that edge line |
| PdfCleaning.DetectRepeatedEdges | backend/ingestion/pdf.py:52-72 | the counting loop returns exactly the detected header and footer sets |
| PdfCleaning.OccurringCount | backend/ingestion/pdf.py:59-60 | a line is a counter key iff some page has it as its edge |
| PdfCleaning.DetectedIff | backend/ingestion/pdf.py:61-71 | a line is detected iff it is the edge of at least threshold pages and has at most 120 characters |
| PdfCleaning.OnePageHasNoEdges | backend/ingestion/pdf.py:61-71 | a document of at most one page detects no header and no footer |
| PdfCleaning.SharedEdgeDetected | backend/ingestion/pdf.py:55-71 | a line of at most 120 characters that is the edge of every page of a document with two or more pages is detected |
| PdfCleaning.DropHeadersSpec | backend/ingestion/pdf.py:79-80 | the header loop leaves a suffix; every popped line is a header, and the remaining first line is not |
| PdfCleaning.DropFootersSpec | backend/ingestion/pdf.py:81-82 | the footer loop leaves a prefix; every popped line is a footer, and the remaining last line is not |
| PdfCleaning.TrimmedEdges | backend/ingestion/pdf.py:79-82 | after both loops the first line is no header and the last no footer |
| PdfCleaning.BulletRemoved | backend/ingestion/pdf.py:11-13 | a leading bullet (`-`, `*`, ASCII digits or one letter before `.` or `)`, or a Unicode bullet) followed by whitespace is removed together with that whitespace |
| PdfCleaning.LabelRemoved | backend/ingestion/pdf.py:14 | a leading `Figure`/`Table`/`Listing`/`Appendix` label (any case), whitespace, ASCII digits and `:`, `.` or `-` is removed with the whitespace after it |
| PdfCleaning.ReplaceNonAscii | backend/ingestion/pdf.py:15 | every character outside tab, LF, CR and 0x20-0x7E becomes a space, and nothing else changes |
| PdfCleaning.SanitizeLineShape | backend/ingestion/pdf.py:100-105 | a sanitised line holds only 0x20-0x7E, has no two spaces in a row, and neither starts nor ends with `-`, `•` or `*` |
| PdfCleaning.PageOfLineIsNoise | backend/ingestion/pdf.py:17 | `page N of M`, in any case, is a noise line |
| PdfCleaning.CleanLinesStep | backend/ingestion/pdf.py:84-88 | each line is sanitised and kept unless empty or noise, in order |
| PdfCleaning.ContentLineNotNoise | backend/ingestion/pdf.py:108-117 | `Page 1 content line` is not a noise line: `page` followed by digits and more text is not a page-number line |
| PdfCleaning.ContentLineSanitized | backend/ingestion/pdf.py:100-105 | sanitising leaves `Page 1 content line` as it is |
| PdfCleaning.ContentLineKept | backend/tests/test_pdf_cleaning.py:27 | the line loop keeps `Page 1 content line` unchanged |
| PdfCleaning.CleanLinesShape | backend/ingestion/pdf.py:83-88 | every kept line is sanitised, longer than two characters and not noise |
| PdfCleaning.CleanPageText | backend/ingestion/pdf.py:75-89 | the page loop (pop headers, pop footers, filter lines) equals the page-cleaning function |
| PdfCleaning.CleanPageChars | backend/ingestion/pdf.py:75-89 | a cleaned page holds only printable ASCII and line feeds |
| PdfCleaning.CollapseBlanksShape | backend/ingestion/pdf.py:121 | after `[ \t]+ -> " "` there is no tab and no two blanks in a row |
| PdfCleaning.CollapseNewlineRunsShape | backend/ingestion/pdf.py:122 | after `\s*\n\s* -> \n` no line feed has whitespace on either side |
| PdfCleaning.IsolatedNoDoubleNewline | backend/ingestion/pdf.py:122-123 | a text whose line feeds are isolated has no two line feeds in a row |
| PdfCleaning.CapNewlineRunsIdentity | backend/ingestion/pdf.py:123 | `\n{3,} -> \n\n` changes nothing in a text without two line feeds in a row |
| PdfCleaning.CapAfterCollapse | backend/ingestion/pdf.py:122-123 | the third substitution never fires after the second |
| PdfCleaning.NormalizeWhitespaceShape | backend/ingestion/pdf.py:120-124 | the normalised text has no surrounding whitespace, no whitespace beside a line feed and no blank line |
| PdfCleaning.NormalizeWhitespaceKeeps | backend/ingestion/pdf.py:120-124 | normalisation brings in no character except space and line feed |
| PdfCleaning.NonEmptyPagesSpec | backend/ingestion/pdf.py:46-47 | the empty cleaned pages are dropped, and none is left iff all were empty |
| PdfCleaning.CleanEachPage | backend/ingestion/pdf.py:45 | every page is cleaned with the same detected headers and footers, in order |
| PdfCleaning.CleanDocumentText | backend/ingestion/pdf.py:41-49 | the document cleaner equals the document-cleaning function |
| PdfCleaning.CleanDocumentShape | backend/ingestion/pdf.py:41-49 | a cleaned document is stripped, holds printable ASCII and line feeds only, and has no blank line |
| PdfCleaning.EmptyDocument | backend/ingestion/pdf.py:42-48 | a document whose pages all clean to nothing, the empty document included, gives `""` |
| WordChunking.IngestText | backend/ingestion/text.py:4-5 | the result is a stripped infix of the text with only whitespace around it, empty iff the text is blank |
| WordChunking.Stride | backend/ingestion/text.py:13 | the stride is at least 1 and at least `chunk_size - overlap` |
| WordChunking.ChunkText | backend/ingestion/text.py:8-18 | the chunking loop equals the chunk function |
| WordChunking.ChunksAreWindows | backend/ingestion/text.py:9-17 | the chunks of a non-blank text are the word windows at multiples of the stride |
| WordChunking.NoChunksIffBlank | backend/ingestion/text.py:9-12 | no chunks iff the text is blank (for `chunk_size >= 1`) |
| WordChunking.ChunkCount | backend/ingestion/text.py:13-17 | the chunk count is `ceil(words / stride)` |
| WordChunking.ChunkWords | backend/ingestion/text.py:14-17 | chunk `k` joins the at most `chunk_size` words from word `k * stride` with single spaces and splits back into them |
| WordChunking.ChunksInOrder | backend/ingestion/text.py:14 | a later chunk starts at a later word |
| WordChunking.EveryWordCovered | backend/ingestion/text.py:13-15 | with `0 <= overlap < chunk_size` word `i` lies in chunk `i / stride` |
| WordChunking.FirstAndLastChunk | backend/ingestion/text.py:13-15 | the first chunk starts at the first word and the last chunk ends at the final word |
| WordChunking.ConsecutiveChunksOverlap | backend/ingestion/text.py:13-15 | a full chunk shares its last `overlap` words with the start of the next |
| WordChunking.ChunksRejoin | backend/ingestion/text.py:9-15 | with overlap 0 the chunks joined by spaces are the text's words joined by spaces |
| Stores.TextsOf | backend/local_stack/db.py:44-54 | the texts read back are the rows' texts in insertion order |
| Stores.LocalStore.constructor | backend/local_stack/db.py:15-29 | a freshly created `pdfs` table has no rows |
| Stores.LocalStore.AddChunk | backend/local_stack/db.py:32-41 | `add_chunk` appends exactly one row |
| Stores.LocalStore.Texts | backend/local_stack/db.py:60-65 | the index is built over one text per row |
| Stores.ChunkRowsAt | backend/local_stack/main.py:75-77 | row `i` of a chunk run holds chunk `i`, the file name and the chunk's embedding |
| Stores.ChunkRowsAppend | backend/local_stack/main.py:75-77 | the rows of two runs of chunks are the rows of each run, one after the other |
| Stores.StoreChunks | backend/local_stack/main.py:75-77 | the store loop appends one row per chunk, in order, and nothing else |
| Stores.RemoteStore.constructor | backend/vector_store/qdrant_store.py:22-36 | a new remote store has the given availability and no points |
| Stores.RemoteStore.UpsertText | backend/vector_store/qdrant_store.py:65-73 | an upsert succeeds iff the store is available and the network call succeeds; a success stores one point and returns its id, metadata and content; availability never changes |
| VectorService.UseQdrant | backend/services/vector_service.py:31-38 | raises exactly for `"qdrant"` with the remote store down; otherwise selects the remote store iff it is available and the target is `"qdrant"` or `"auto"` |
| VectorService.UseLocal | backend/services/vector_service.py:41-46 | selects the local store iff the target is `"local"` or `"auto"`, whatever the remote store does |
| VectorService.UnknownTargetSelectsNothing | backend/services/vector_service.py:31-46 | any other target selects no backend |
| VectorService.Segments | backend/services/vector_service.py:51 | the segments are the word chunks, or the text itself when it is blank; never none |
| VectorService.IngestLocal | backend/services/vector_service.py:67-71 | one row under `metadata["source"]` (default `"local-upload"`) with the given or a fresh embedding, and the local record |
| VectorService.IngestSegment | backend/services/vector_service.py:53-63 | the remote record only when the upsert succeeds, then the local record when local is selected; each store gains exactly that segment's write |
| VectorService.IngestSegments | backend/services/vector_service.py:53-64 | the segment loop returns every segment's records in order, and the stores gain their writes in order |
| VectorService.IngestText | backend/services/vector_service.py:49-64 | a pinned unavailable remote store raises before any write; otherwise the records and both stores' new contents are as the segment loop says |
| VectorService.LocalOnlyIngest | backend/services/vector_service.py:49-71 | with the local store alone, one local record and one row per segment, in order, and no remote point |
| VectorService.RecordsAreWrites | backend/services/vector_service.py:53-63 | there is one record per write to either store, at most two per segment, each with the segment's metadata; a record is local iff it has no id |
| VectorService.Score | backend/services/vector_service.py:112 | a local hit's score lies in (0, 1] |
| VectorService.ScoreDecreasing | backend/services/vector_service.py:112 | the score falls strictly as the distance grows |
| VectorService.TagRemote | backend/services/vector_service.py:94-98 | remote hits keep their own `backend` tag, get `"qdrant"` when they have none, and are otherwise unchanged |
| VectorService.SearchLocal | backend/services/vector_service.py:101-119 | the neighbour loop equals the local-hits function |
| VectorService.LocalHitsSpec | backend/services/vector_service.py:101-119 | an empty index gives no hits. Otherwise the search raises iff a row lies before the start of the texts; it skips rows past the end and reads every other row, negative ones from the end, in order. A raise of `index.search` itself is not covered (see Left out) |
| VectorService.KeyOf | backend/services/vector_service.py:87 | a hit is filed under its id, or under `"local-<dict size>"` when the id is missing |
| VectorService.MergeHits | backend/services/vector_service.py:85-89 | the dedupe loop equals the merge function |
| VectorService.MergeSpec | backend/services/vector_service.py:85-89 | keys are in first-insertion order and distinct. Each key keeps its first hit of highest score: a later hit replaces it only when strictly higher. Every kept hit comes from the results |
| VectorService.Values | backend/services/vector_service.py:90 | the values in key order |
| VectorService.MergedFromCandidates | backend/services/vector_service.py:85-90 | every merged hit is one of the search results |
| VectorService.MergedIdsDiffer | backend/services/vector_service.py:85-90 | merged hits have pairwise different ids |
| VectorService.RankedSpec | backend/services/vector_service.py:85-91 | the answer is sorted by score (non-increasing) and has `min(top_k, merged)` hits. It holds no repeated id and only search results. No hit left out scores above one kept, and equal scores keep their merged order |
| VectorService.CollectResults | backend/services/vector_service.py:75-83 | the remote hits (tagged) when remote is selected and answers, followed by the local hits when local is selected |
| VectorService.SearchVectors | backend/services/vector_service.py:74-91 | the search method equals the search function over the stores' current state |
| VectorService.SearchFails | backend/services/vector_service.py:77-83 | the search raises iff the remote store is pinned and down, or local is selected and a neighbour row lies before the start of a non-empty store. A raise of `index.search` itself is not covered (see Left out) |
| VectorService.SearchSources | backend/services/vector_service.py:75-83 | every tagged hit comes from the remote answer with the remote store selected; every untagged hit comes from the local hits with the local store selected |
| VectorService.LocalHitsUntagged | backend/services/vector_service.py:113-118 | local hits carry no backend tag |
| VectorService.SearchFallsBackToLocal | backend/services/vector_service.py:77-91 | `"local"`, or `"auto"` with the remote store down or failing, ranks the local hits alone |
| VectorService.Contents | backend/services/vector_service.py:124 | every kept content is non-empty and is some hit's content; none iff every content is empty |
| VectorService.ContentsInOrder | backend/services/vector_service.py:124 | the kept contents are read at strictly increasing hit positions, and a hit's position is among them iff its content is non-empty |
| VectorService.SummarizeText | backend/services/vector_service.py:131-141 | blank text gives `""`. With a model, its summary of the first 1024 characters of the stripped text. Otherwise the stripped text up to its third `.`, stripped |
| VectorService.ShortSummaryIsText | backend/services/vector_service.py:140-141 | without a model, a text with fewer than three `.` is summarised as `text.strip()` |
| VectorService.AnswerFrom | backend/services/vector_service.py:122-128 | no context iff no hit has content, and then the fixed answer with no sources; otherwise a non-empty context and all hits as sources |
| VectorService.NoContextSkipsSummarizer | backend/services/vector_service.py:124-126 | without context the summariser is never consulted |
| VectorService.AnswerSummarisesContext | backend/services/vector_service.py:124-128 | with context, the answer summarises the context followed by the question, and the context is the non-empty contents joined by blank lines |
| VectorService.RagAnswer | backend/services/vector_service.py:122-128 | `rag_answer` raises when the search raises, and otherwise answers from the search hits |
| PySorted.SortDescSpec | backend/services/vector_service.py:90 | `sorted(..., reverse=True)` is non-increasing, a permutation, and stable |
| PySorted.SortDescPairwise | backend/services/vector_service.py:90 | sorting keeps distinct ids distinct |
| PySorted.TopOfSort | backend/services/vector_service.py:90-91 | the first `n` of the sort are ordered, the `n` best, and stable |
| PyStr.CutAt | backend/services/vector_service.py:140-141 | the cut point is the `n`-th `.`, or the end when there are fewer |
| PyStr.FirstPieces | backend/services/vector_service.py:140-141 | `".".join(s.split(".")[:n])` is `s` up to its `n`-th `.` |
| Duplicates.IsDuplicate | backend/rag/duplicate.py:12-15 | a text is a duplicate iff its digest is known |
| Duplicates.DuplicateAfterRecording | backend/rag/duplicate.py:12-15 | once a digest is recorded, every text with that digest is a duplicate |
| Duplicates.Cosine | backend/rag/duplicate.py:26-30 | a zero norm product gives `0.0`; otherwise the similarity times the norm product is the dot product |
| Duplicates.ZeroNormIsDissimilar | backend/rag/duplicate.py:26-29 | a zero vector on either side gives similarity `0.0` |
| Duplicates.DuplicatesOf | backend/rag/duplicate.py:37-50 | no more duplicates than candidates |
| Duplicates.FilterCandidates | backend/rag/duplicate.py:37-50 | the candidate loop equals the duplicate filter |
| Duplicates.DuplicatesSpec | backend/rag/duplicate.py:37-50 | order-preserving selection: each duplicate is a candidate with content, carrying its text, its metadata and its similarity. The similarity reaches the threshold, and no candidate that reaches it is missed |
| Duplicates.CheckDuplicatesIn | backend/rag/duplicate.py:32-50 | blank text gives none without searching; otherwise search, then filter, and a failing search raises |
| Duplicates.AtMostTopK | backend/rag/duplicate.py:32-36 | at most `top_k` duplicates, and none for blank text |
| RagEngine.KeptRows | backend/local_stack/rag_engine.py:14 | every kept row is a returned row below `len(texts)` |
| RagEngine.KeptRowsInOrder | backend/local_stack/rag_engine.py:14 | the kept rows are read at strictly increasing positions of the returned rows, and a position is among them iff its row is below `len(texts)` |
| RagEngine.RetrievedSpec | backend/local_stack/rag_engine.py:14 | retrieval raises `IndexError` iff a row lies before the start; otherwise it reads every kept row, negative ones from the end, in order |
| RagEngine.NonBlank | backend/local_stack/rag_engine.py:15 | every kept chunk is a non-blank chunk of the input; none iff all are blank |
| RagEngine.NonBlankInOrder | backend/local_stack/rag_engine.py:15 | the kept chunks are read at strictly increasing positions, and a position is among them iff its chunk is not all whitespace |
| RagEngine.AnswerKinds | backend/local_stack/rag_engine.py:5-29 | exactly one of four answers: an error text, the no-documents text for an empty store, the no-information text when every chunk is blank, or the template over the non-blank chunks |
| RagEngine.TemplateIsDistinct | backend/local_stack/rag_engine.py:20-29 | a template answer is neither fixed text nor an error text |
| RagEngine.TemplateEndsWithQuestion | backend/local_stack/rag_engine.py:20-27 | a template answer starts with the header and ends with the footer and the question |
| CharWindows.WindowsFrom | backend/local_stack/main.py:68-69 | no windows iff the start is past the text; no window is longer than the size |
| CharWindows.WindowCount | backend/local_stack/main.py:68 | one window per step start before the end of the text |
| CharWindows.WindowAt | backend/local_stack/main.py:68-69 | window `k` is `text[start + k*step : start + k*step + size]` |
| CharWindows.WindowsConcat | backend/finetune_stack/main.py:34 | windows as long as the step rejoin to the text |
| CharWindows.WindowsFull | backend/finetune_stack/main.py:34 | every such window but the last is as long as the step |
| CharWindows.StrippedFrom | backend/local_stack/main.py:68-71 | every kept chunk is non-empty, stripped and no longer than the size |
| CharWindows.StrippedAreWindows | backend/local_stack/main.py:68-71 | the kept chunks are the windows, stripped, with the empty ones dropped |
| CharWindows.BlankHasNoChunks | backend/local_stack/main.py:68-71 | a blank text keeps no chunk |
| CharWindows.StrippedNotEmpty | backend/local_stack/main.py:62-71 | with a step no larger than the size, a non-blank text keeps at least one chunk |
| Extraction.KindByExtension | backend/local_stack/main.py:54-61 | a PDF iff the lower-cased name ends in `.pdf`; an image iff not, and it ends in `.png`, `.jpg` or `.jpeg`; `backend/routers/local_mode.py:25-30` makes the same test |
| LocalStackUpload.ChunkText | backend/local_stack/main.py:64-71 | the chunking loop keeps the stripped, non-empty 800-character windows every 700 characters |
| LocalStackUpload.UploadFile | backend/local_stack/main.py:54-91 | the handler's response, and one new row per chunk, in order |
| LocalStackUpload.UploadStoresChunks | backend/local_stack/main.py:54-88 | nothing is stored on an error. A success reports as many chunks as were stored, at least one; each is non-empty, stripped and at most 800 characters |
| LocalStackUpload.BlankIsRefused | backend/local_stack/main.py:62-63 | blank text is refused and nothing is stored |
| LocalModeUpload.FilenameOf | backend/routers/local_mode.py:21 | a missing or empty name becomes `"document"`; any other is kept |
| LocalModeUpload.StoreWindow | backend/routers/local_mode.py:39-43 | one turn keeps and stores the stripped window at `i` unless it is empty |
| LocalModeUpload.ChunkAndStore | backend/routers/local_mode.py:35-43 | the loop keeps the stripped, non-empty 600-character windows every 480 characters, storing each at once, in order |
| LocalModeUpload.UploadToLocalStore | backend/routers/local_mode.py:18-45 | the route's response, and one new row per kept chunk under the defaulted name |
| LocalModeUpload.UploadStoresChunks | backend/routers/local_mode.py:25-45 | nothing is stored unless the route answers `"ok"`. Then `chunks_written` is `str` of the number stored, at least one; each chunk is non-empty, stripped and at most 600 characters |
| FinetuneUpload.KindOf | backend/finetune_stack/main.py:26-31 | a PDF iff the name, as written, ends in `.pdf`; an image iff not, and the lower-cased name ends in `.png` or `.jpg` |
| FinetuneUpload.UploadFile | backend/finetune_stack/main.py:26-39 | the handler's response, and one new row per slice, in order |
| FinetuneUpload.SlicesSpec | backend/finetune_stack/main.py:34 | the slices rejoin to the text. Every slice but the last has 500 characters and none is empty or longer. There are none iff the text is empty |
| FinetuneUpload.SliceAt | backend/finetune_stack/main.py:34 | slice `k` is `text[500k : 500k + 500]` |
| FinetuneUpload.UploadStoresSlices | backend/finetune_stack/main.py:30-37 | nothing is stored on an error; otherwise the stored slices rejoin to the extracted text, whitespace-only ones included |

## Left out

- Floating point. Scores, similarities, norms and the `0.6` factor are exact reals.
  The threshold is the integer `max(2, ceil(3n/5))`, which equals the float
  expression for every page count the code can see.
- The embedder, summariser, md5 digest and Euclidean norm are function parameters.
  They are assumed to be pure and not to raise. `FixedDimension` assumes every
  embedding has one length.
- The summariser's global cache is not modelled. Whether a summariser loaded is an
  `Option`.
- Network answers are parameters:
  - the Qdrant upsert outcome for each segment (an id or a raise);
  - the Qdrant search answer (the hits or a raise).
  Fresh `uuid` ids are part of those outcomes.
- The faiss index is not modelled. Its answer to a search is the `neighbours`
  parameter: row numbers and non-negative distances. A `-1` pad is read as the
  code reads it: `texts[-1]`, the last row.
- File saving, the pickling of embeddings and the SQLite connection are I/O and are
  left out. Exceptions from the embedder or the stores are left out too, in the
  ingestion loop and in the upload handlers' catch-all.
- `VectorService.Candidates`, `VectorService.SearchVectors`: the `neighbours`
  parameter cannot stand for an `index.search` call that raises
  (`backend/services/vector_service.py:106`). `RagEngine` does model that raise,
  through its `raised` parameter.
- `VectorService.LocalHitsSpec`: its "raises iff" covers only a row before the start
  of the texts. `index.search` (`backend/services/vector_service.py:106`) on a
  non-empty store also raises for `top_k <= 0`. That raise comes from faiss, which
  is not part of this model, and the model answers with hits instead.
- `VectorService.SearchFails`: for the same reason, its "raises iff" leaves out the
  `index.search` raise for `top_k <= 0` on a non-empty local store. The `/vector`
  route (`backend/routers/search.py:9-10`) passes any integer `top_k`, so a caller
  can reach that raise.
- Unicode. Whitespace is Python's ASCII whitespace set and `splitlines` uses the
  ASCII line boundaries. `lower` folds ASCII letters only. Other characters are
  kept as they are.
- `PdfCleaning.StripBullet`, `PdfCleaning.StripLabel`: `\d` in `BULLET_PATTERN` and
  `LEADING_LABEL_PATTERN` (`backend/ingestion/pdf.py:13-14`) matches every Unicode
  decimal digit, and both run before non-ASCII characters are replaced. The model
  reads `\d` as ASCII `0-9` only. So `३. Intro` keeps its marker in the model,
  where Python strips it to `Intro`; `Figure ३: Results` is handled the same way.
- `pdfplumber`, OCR and the other extractors are the `Extractor` parameter; an
  extractor may fail. Page extraction (`backend/ingestion/pdf.py:24-38`) is not
  modelled: the cleaner starts from the list of page texts.
- Metadata of a search hit is never missing, and neither is its score. A missing
  id is the empty string. `candidate.get("metadata", {})` therefore always takes
  the candidate's metadata.
- `LocalStackUpload.UploadFile`: the file name is a string. A missing name, which
  makes the save path raise and the handler answer `"Processing failed: ..."`, is
  not modelled.
- `FinetuneUpload.UploadFile`: the file name is a string. A missing name makes
  `PDF_FOLDER / filename` raise, and the handler answers `{"error": str(e)}`
  (`backend/finetune_stack/main.py:40-41`). That path is not modelled.
- `LocalStackUpload.UploadFile`, `FinetuneUpload.UploadFile`: only extractor
  exceptions become error responses. An exception raised while storing chunks, and
  the rows already written before it, are not modelled.
- `LocalModeUpload.UploadToLocalStore`: an extractor exception is a `Failure` that
  the route propagates. A failure part-way through the store loop is not modelled.
- `VectorService.IngestText`: the source embeds the first segment before
  `_use_qdrant` raises; the model raises without that call. Embedding changes no
  state, so in both the stores are untouched.
- `VectorService.RankedSpec`: the length is stated for `top_k >= 0` only. Python's
  negative slice bound is modelled in `PySlice` but not characterised there.
- The output sanitiser that the tests exercise is not defined in the modelled
  `vector_service.py`, so it is not part of this model.
- The detector's `threshold` and `target` are never reassigned in the source, so
  the detector is a value (`Duplicates.Detector`), not a class.
- The two-page example of `backend/tests/test_pdf_cleaning.py` is not evaluated as
  a whole. Its parts are proved separately:
  - a shared first line is detected (`SharedEdgeDetected`);
  - `Page N of M` is noise (`PageOfLineIsNoise`);
  - a `- ` bullet is removed (`BulletRemoved`);
  - `Page 1 content line` is kept unchanged by the line loop (`ContentLineKept`).
  Whether that line also survives the header and footer pops of the whole
  example, and appears in the joined document, is not proved.
- `LEADING_LABEL_PATTERN` (`backend/ingestion/pdf.py:14`) requires digits after
  the keyword. So a line such as `Appendix A-` keeps its label, and the model keeps
  it too.
- `backend/services/vector_service.py:12` imports `qdrant_store` from the package
  `backend.vector_store`. That binds the submodule unless the package's
  `__init__.py` re-exports the store instance, and that file is not part of this
  model. The model assumes the instance built at
  `backend/vector_store/qdrant_store.py:116`.
