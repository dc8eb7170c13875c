/**
 * The two vector stores behind the services: the local SQLite table `pdfs` (rows of file
 * name, text chunk and embedding, read back in insertion order to build the faiss index)
 * and the remote Qdrant collection (an availability flag and the stored points).
 */
module Stores {
  import opened Results
  import opened PyStr

  /** An embedding vector; the embedder itself is a parameter wherever it is called. */
  type Embedding = seq<real>

  /** A row of the local `pdfs` table. */
  datatype Row = Row(filename: string, text: string, embedding: Embedding)

  /** The texts of `rows`, in insertion order: what `get_all_chunks` reads back. */
  function TextsOf(rows: seq<Row>): (texts: seq<string>)
    ensures |texts| == |rows|
    ensures forall i :: 0 <= i < |rows| ==> texts[i] == rows[i].text
  {
    if rows == [] then [] else TextsOf(rows[..|rows| - 1]) + [rows[|rows| - 1].text]
  }

  /** The local store: append-only, one row per `add_chunk`. */
  class LocalStore {
    var rows: seq<Row>

    constructor ()
      ensures rows == []
    {
      rows := [];
    }

    /** `add_chunk(filename, chunk_text, embedding)`: appends one row. */
    method AddChunk(filename: string, text: string, embedding: Embedding)
      modifies this
      ensures rows == old(rows) + [Row(filename, text, embedding)]
    {
      rows := rows + [Row(filename, text, embedding)];
    }

    /** The texts `build_faiss_index` returns beside the index, which holds one vector per row. */
    function Texts(): (texts: seq<string>)
      reads this
      ensures |texts| == |rows|
    {
      TextsOf(rows)
    }
  }

  /** The row `add_chunk(filename, c, embed(c))` writes for a chunk `c`. */
  function RowMaker(filename: string, embed: string -> Embedding): string -> Row {
    c => Row(filename, c, embed(c))
  }

  /** The rows written for each chunk, in order. */
  function ChunkRows(filename: string, chunks: seq<string>, embed: string -> Embedding): (rows: seq<Row>)
    ensures |rows| == |chunks|
  {
    Map(RowMaker(filename, embed), chunks)
  }

  /** Row `i` holds chunk `i` under the file's name, with the chunk's embedding. */
  lemma ChunkRowsAt(filename: string, chunks: seq<string>, embed: string -> Embedding)
    ensures forall i :: 0 <= i < |chunks| ==> ChunkRows(filename, chunks, embed)[i] == Row(filename, chunks[i], embed(chunks[i]))
  {
    MapAt(RowMaker(filename, embed), chunks);
  }

  /** The rows of two runs of chunks are the rows of the first run, then those of the second. */
  lemma ChunkRowsAppend(filename: string, a: seq<string>, b: seq<string>, embed: string -> Embedding)
    ensures ChunkRows(filename, a + b, embed) == ChunkRows(filename, a, embed) + ChunkRows(filename, b, embed)
  {
    MapAppend(RowMaker(filename, embed), a, b);
  }

  lemma Associative<T>(a: seq<T>, b: seq<T>, c: seq<T>)
    ensures (a + b) + c == a + (b + c)
  {
  }

  /** The upload handlers' store loop: embed each chunk and add it, one row per chunk, in order. */
  method StoreChunks(filename: string, chunks: seq<string>, embed: string -> Embedding, local: LocalStore)
    modifies local
    ensures local.rows == old(local.rows) + ChunkRows(filename, chunks, embed)
  {
    for i := 0 to |chunks|
      invariant local.rows == old(local.rows) + ChunkRows(filename, chunks[..i], embed)
    {
      assert chunks[..i + 1][..i] == chunks[..i];
      local.AddChunk(filename, chunks[i], embed(chunks[i]));
    }
    assert chunks[..|chunks|] == chunks;
  }

  /** A point of the remote collection: its payload is the metadata plus the content. */
  datatype Point = Point(id: string, metadata: map<string, string>, content: string, vector: Embedding)

  /** What `upsert_text` returns: `{"id": ..., "metadata": ..., "content": ...}`. */
  datatype Upserted = Upserted(id: string, metadata: map<string, string>, content: string)

  /** The remote (Qdrant) store. */
  class RemoteStore {
    /** `is_available`: a client was created and the connection succeeded. */
    var available: bool
    var points: seq<Point>

    constructor (available: bool)
      ensures this.available == available && points == []
    {
      this.available := available;
      points := [];
    }

    /**
     * `upsert_text`. Without a client it raises; otherwise the network call either stores
     * the point under a fresh id (`outcome == Some(id)`) or raises (`outcome == None`).
     * A raise is `None`.
     */
    method UpsertText(text: string, metadata: map<string, string>, embedding: Embedding, outcome: Option<string>)
      returns (r: Option<Upserted>)
      modifies this
      ensures available == old(available)
      ensures r.Some? <==> old(available) && outcome.Some?
      ensures r.Some? ==> r.value == Upserted(outcome.value, metadata, text)
      ensures r.Some? ==> points == old(points) + [Point(outcome.value, metadata, text, embedding)]
      ensures r.None? ==> points == old(points)
    {
      if !available || outcome.None? {
        return None;
      }
      points := points + [Point(outcome.value, metadata, text, embedding)];
      r := Some(Upserted(outcome.value, metadata, text));
    }
  }
}
