/**
 * The vector service: which backend a `target` selects, ingestion of a text into the
 * selected stores, the merged and ranked search over both stores, and the RAG answer
 * assembled from the search hits.
 */
module VectorService {
  import opened Results
  import opened PyStr
  import opened PySorted
  import opened WordChunking
  import opened Stores

  const QdrantUnavailable := "Qdrant backend is not available"
  const DefaultSource := "local-upload"
  const NoContextAnswer := "No context available yet. Please ingest content first."

  // ---------------------------------------------------------------------------
  // Backend selection
  // ---------------------------------------------------------------------------

  /**
   * `_use_qdrant(target)`: `"qdrant"` pins the remote store and fails when it is
   * unavailable, `"auto"` uses it when available, anything else never does.
   */
  function UseQdrant(target: string, available: bool): (r: Result<bool, string>)
    ensures r.Failure? <==> target == "qdrant" && !available
    ensures r.Failure? ==> r.error == QdrantUnavailable
    ensures r.Success? ==> (r.value <==> available && (target == "qdrant" || target == "auto"))
  {
    if target == "qdrant" then
      if !available then Failure(QdrantUnavailable) else Success(true)
    else if target == "auto" then
      Success(available)
    else
      Success(false)
  }

  /**
   * `_use_local(target)`: the availability test in the source changes nothing, so
   * `"auto"` writes to and reads from the local store whatever the remote store does.
   */
  function UseLocal(target: string, available: bool): (r: bool)
    ensures r <==> target == "local" || target == "auto"
  {
    if target == "local" then true
    else if target == "auto" && !available then true
    else target == "auto"
  }

  /** A target other than the three modes selects no backend at all. */
  lemma UnknownTargetSelectsNothing(target: string, available: bool)
    requires target != "qdrant" && target != "local" && target != "auto"
    ensures UseQdrant(target, available) == Success(false) && !UseLocal(target, available)
  {
  }

  // ---------------------------------------------------------------------------
  // Ingestion
  // ---------------------------------------------------------------------------

  /** A record `ingest_text` returns; local records carry no id. */
  datatype Record = Record(backend: string, id: Option<string>, metadata: map<string, string>, content: string)

  /** `metadata or {}`. */
  function MetadataOrEmpty(metadata: Option<map<string, string>>): map<string, string> {
    if metadata.Some? then metadata.value else map[]
  }

  /** `metadata.get("source", "local-upload")`: the file name of a local row. */
  function SourceName(metadata: map<string, string>): string {
    if "source" in metadata then metadata["source"] else DefaultSource
  }

  /** `chunk_text(text) or [text]`: the default word windows, or the text itself when blank. */
  function Segments(text: string): (segments: seq<string>)
    ensures segments != []
    ensures AllSpace(text) ==> segments == [text]
    ensures !AllSpace(text) ==> segments == WordChunks(text, DefaultChunkSize, DefaultOverlap)
  {
    NoChunksIffBlank(text, DefaultChunkSize, DefaultOverlap);
    var chunks := WordChunks(text, DefaultChunkSize, DefaultOverlap);
    if chunks == [] then [text] else chunks
  }

  /**
   * The records one segment yields: a remote record when the remote store is used and the
   * upsert succeeded (`outcome` is the id it stored the point under), then a local record.
   */
  function SegmentRecords(segment: string, metadata: map<string, string>, useQdrant: bool, useLocal: bool,
                          outcome: Option<string>): seq<Record>
  {
    (if useQdrant && outcome.Some? then [Record("qdrant", Some(outcome.value), metadata, segment)] else [])
    + (if useLocal then [Record("local", None, metadata, segment)] else [])
  }

  /** The records of the first `k` segments, in order; `outcomes(i)` is the upsert outcome of segment `i`. */
  function RecordsUpTo(segments: seq<string>, k: nat, metadata: map<string, string>, useQdrant: bool,
                       useLocal: bool, outcomes: nat -> Option<string>): seq<Record>
    requires k <= |segments|
  {
    if k == 0 then []
    else RecordsUpTo(segments, k - 1, metadata, useQdrant, useLocal, outcomes)
         + SegmentRecords(segments[k - 1], metadata, useQdrant, useLocal, outcomes(k - 1))
  }

  /** The local rows the first `k` segments add. */
  function RowsUpTo(segments: seq<string>, k: nat, metadata: map<string, string>, useLocal: bool,
                    embed: string -> Embedding): seq<Row>
    requires k <= |segments|
  {
    if k == 0 then []
    else RowsUpTo(segments, k - 1, metadata, useLocal, embed)
         + (if useLocal then [Row(SourceName(metadata), segments[k - 1], embed(segments[k - 1]))] else [])
  }

  /** The remote points the first `k` segments add. */
  function PointsUpTo(segments: seq<string>, k: nat, metadata: map<string, string>, useQdrant: bool,
                      outcomes: nat -> Option<string>, embed: string -> Embedding): seq<Point>
    requires k <= |segments|
  {
    if k == 0 then []
    else PointsUpTo(segments, k - 1, metadata, useQdrant, outcomes, embed)
         + (if useQdrant && outcomes(k - 1).Some?
            then [Point(outcomes(k - 1).value, metadata, segments[k - 1], embed(segments[k - 1]))] else [])
  }

  /**
   * `_ingest_local`: stores the text under its source name, with the given embedding or,
   * when there is none, the text's own embedding.
   */
  method IngestLocal(text: string, metadata: map<string, string>, embedding: Option<Embedding>,
                     embed: string -> Embedding, local: LocalStore)
    returns (r: Record)
    modifies local
    ensures r == Record("local", None, metadata, text)
    ensures local.rows == old(local.rows) + [Row(SourceName(metadata), text, embedding.GetOr(embed(text)))]
  {
    var vector := if embedding.Some? then embedding.value else embed(text);
    local.AddChunk(SourceName(metadata), text, vector);
    r := Record("local", None, metadata, text);
  }

  /**
   * One turn of the `ingest_text` loop: the segment is embedded, upserted to the remote
   * store when it is selected (a failed upsert is swallowed), then written locally when
   * the local store is selected.
   */
  method IngestSegment(segment: string, metadata: map<string, string>, useQdrant: bool, useLocal: bool,
                       embed: string -> Embedding, outcome: Option<string>, local: LocalStore, remote: RemoteStore)
    returns (written: seq<Record>)
    requires useQdrant ==> remote.available
    modifies local, remote
    ensures written == SegmentRecords(segment, metadata, useQdrant, useLocal, outcome)
    ensures remote.available == old(remote.available)
    ensures local.rows == old(local.rows) + if useLocal then [Row(SourceName(metadata), segment, embed(segment))] else []
    ensures remote.points == old(remote.points)
                             + if useQdrant && outcome.Some? then [Point(outcome.value, metadata, segment, embed(segment))] else []
  {
    var embedding := embed(segment);
    written := [];
    if useQdrant {
      var upserted := remote.UpsertText(segment, metadata, embedding, outcome);
      if upserted.Some? {
        written := [Record("qdrant", Some(upserted.value.id), upserted.value.metadata, upserted.value.content)];
      }
    }
    if useLocal {
      var record := IngestLocal(segment, metadata, Some(embedding), embed, local);
      written := written + [record];
    }
  }

  /**
   * `ingest_text(text, metadata, target)`. `embed` is the embedder and `outcomes(i)` the
   * outcome of the remote upsert of segment `i` (`None` when it raised). Pinning an
   * unavailable remote store fails before anything is written; otherwise every segment
   * is written to the selected stores in order.
   */
  method IngestText(text: string, metadata: Option<map<string, string>>, target: string,
                    embed: string -> Embedding, outcomes: nat -> Option<string>,
                    local: LocalStore, remote: RemoteStore)
    returns (r: Result<seq<Record>, string>)
    modifies local, remote
    ensures remote.available == old(remote.available)
    ensures var m, segments, selected := MetadataOrEmpty(metadata), Segments(text), UseQdrant(target, old(remote.available));
      if selected.Failure? then
        r == Failure(selected.error) && local.rows == old(local.rows) && remote.points == old(remote.points)
      else
        var useLocal := UseLocal(target, old(remote.available));
        && r == Success(RecordsUpTo(segments, |segments|, m, selected.value, useLocal, outcomes))
        && local.rows == old(local.rows) + RowsUpTo(segments, |segments|, m, useLocal, embed)
        && remote.points == old(remote.points) + PointsUpTo(segments, |segments|, m, selected.value, outcomes, embed)
  {
    var m := MetadataOrEmpty(metadata);
    var chunks := ChunkText(text, DefaultChunkSize, DefaultOverlap);
    NoChunksIffBlank(text, DefaultChunkSize, DefaultOverlap);
    var segments := if chunks == [] then [text] else chunks;
    assert segments == Segments(text);
    // `_use_qdrant` is asked again for every segment, but availability does not change
    // during the call: it raises on the first segment, before anything is written, or never.
    var selected := UseQdrant(target, remote.available);
    if selected.Failure? {
      return Failure(selected.error);
    }
    var records := IngestSegments(segments, m, selected.value, UseLocal(target, remote.available), embed, outcomes, local, remote);
    r := Success(records);
  }

  /** The `for segment in segments` loop of `ingest_text`. */
  method IngestSegments(segments: seq<string>, m: map<string, string>, useQdrant: bool, useLocal: bool,
                        embed: string -> Embedding, outcomes: nat -> Option<string>,
                        local: LocalStore, remote: RemoteStore)
    returns (records: seq<Record>)
    requires useQdrant ==> remote.available
    modifies local, remote
    ensures remote.available == old(remote.available)
    ensures records == RecordsUpTo(segments, |segments|, m, useQdrant, useLocal, outcomes)
    ensures local.rows == old(local.rows) + RowsUpTo(segments, |segments|, m, useLocal, embed)
    ensures remote.points == old(remote.points) + PointsUpTo(segments, |segments|, m, useQdrant, outcomes, embed)
  {
    records := [];
    for i := 0 to |segments|
      invariant remote.available == old(remote.available)
      invariant records == RecordsUpTo(segments, i, m, useQdrant, useLocal, outcomes)
      invariant local.rows == old(local.rows) + RowsUpTo(segments, i, m, useLocal, embed)
      invariant remote.points == old(remote.points) + PointsUpTo(segments, i, m, useQdrant, outcomes, embed)
    {
      var written := IngestSegment(segments[i], m, useQdrant, useLocal, embed, outcomes(i), local, remote);
      records := records + written;
    }
  }

  // ---------------------------------------------------------------------------
  // Properties of ingestion
  // ---------------------------------------------------------------------------

  /**
   * Writing only locally (`"local"`, or `"auto"` with the remote store down) stores each
   * segment once, in order, under its source name, returns one local record per segment
   * and sends nothing to the remote store.
   */
  lemma {:induction false} LocalOnlyIngest(segments: seq<string>, k: nat, metadata: map<string, string>,
                                           outcomes: nat -> Option<string>, embed: string -> Embedding)
    requires k <= |segments|
    ensures var records := RecordsUpTo(segments, k, metadata, false, true, outcomes);
      |records| == k && forall i :: 0 <= i < k ==> records[i] == Record("local", None, metadata, segments[i])
    ensures var rows := RowsUpTo(segments, k, metadata, true, embed);
      |rows| == k && forall i :: 0 <= i < k ==> rows[i] == Row(SourceName(metadata), segments[i], embed(segments[i]))
    ensures PointsUpTo(segments, k, metadata, false, outcomes, embed) == []
  {
    if k > 0 {
      LocalOnlyIngest(segments, k - 1, metadata, outcomes, embed);
    }
  }

  /**
   * Every record stands for exactly one write: the records returned are as many as the
   * rows and points added, every record carries the metadata, the remote ones the id the
   * point was stored under, and no more than two records come from one segment.
   */
  lemma {:induction false} RecordsAreWrites(segments: seq<string>, k: nat, metadata: map<string, string>,
                                            useQdrant: bool, useLocal: bool,
                                            outcomes: nat -> Option<string>, embed: string -> Embedding)
    requires k <= |segments|
    ensures var records := RecordsUpTo(segments, k, metadata, useQdrant, useLocal, outcomes);
      && |records| == |RowsUpTo(segments, k, metadata, useLocal, embed)|
                      + |PointsUpTo(segments, k, metadata, useQdrant, outcomes, embed)|
      && |records| <= 2 * k
      && (forall r :: r in records ==> r.metadata == metadata && r.content in segments[..k])
      && (forall r :: r in records ==> (r.backend == "local" <==> r.id.None?))
  {
    if k > 0 {
      RecordsAreWrites(segments, k - 1, metadata, useQdrant, useLocal, outcomes, embed);
      assert segments[..k] == segments[..k - 1] + [segments[k - 1]];
    }
  }

  // ---------------------------------------------------------------------------
  // Search: the hits of each store
  // ---------------------------------------------------------------------------

  /** Where a hit's metadata comes from: the remote payload, or the local row number. */
  datatype HitMetadata = Payload(fields: map<string, string>) | LocalChunk(chunk: int)

  /** A search hit; `id == ""` stands for a missing id and `backend` for the optional `"backend"` key. */
  datatype Hit = Hit(id: string, score: real, metadata: HitMetadata, content: string, backend: Option<string>)

  /** What the local index returns for one neighbour: its distance and its row (`-1` pads a short answer). */
  datatype Neighbour = Neighbour(distance: real, index: int)

  /** `1 / (1 + distance)`: the nearest row scores highest, and every score lies in (0, 1]. */
  function Score(distance: real): (s: real)
    requires distance >= 0.0
    ensures 0.0 < s <= 1.0
  {
    1.0 / (1.0 + distance)
  }

  /** The score falls strictly as the distance grows. */
  lemma ScoreDecreasing(d1: real, d2: real)
    requires 0.0 <= d1 < d2
    ensures Score(d1) > Score(d2)
  {
    var a, b, s1, s2 := 1.0 + d1, 1.0 + d2, Score(d1), Score(d2);
    assert s1 * a == 1.0 && s2 * b == 1.0;
    MulPositive(s2, b - a);
    assert s2 * (b - a) == s2 * b - s2 * a;
    if s1 <= s2 {
      MulMonotone(s1, s2, a);
      assert false;
    }
  }

  lemma MulPositive(x: real, y: real)
    requires x > 0.0 && y > 0.0
    ensures x * y > 0.0
  {
  }

  lemma MulMonotone(x: real, y: real, z: real)
    requires x <= y && z > 0.0
    ensures x * z <= y * z
  {
    assert y * z - x * z == (y - x) * z;
    if x < y {
      MulPositive(y - x, z);
    }
  }

  /** `_search_qdrant`: `setdefault("backend", "qdrant")` on every hit. */
  function TagRemote(hits: seq<Hit>): (tagged: seq<Hit>)
    ensures |tagged| == |hits|
    ensures forall i :: 0 <= i < |hits| ==> tagged[i].backend.Some? && tagged[i].(backend := hits[i].backend) == hits[i]
    ensures forall i :: 0 <= i < |hits| ==> hits[i].backend.Some? ==> tagged[i] == hits[i]
    ensures forall i :: 0 <= i < |hits| ==> hits[i].backend.None? ==> tagged[i].backend == Some("qdrant")
  {
    if hits == [] then []
    else
      var h := hits[0];
      [if h.backend.Some? then h else h.(backend := Some("qdrant"))] + TagRemote(hits[1..])
  }

  /** All distances the index reports are squared Euclidean distances, so never negative. */
  predicate Distances(neighbours: seq<Neighbour>) {
    forall i :: 0 <= i < |neighbours| ==> neighbours[i].distance >= 0.0
  }

  /**
   * What one neighbour contributes to `_search_local`: nothing when its row is past the
   * end, the `IndexError` of `texts[idx]` when it is before the start, and otherwise a hit.
   */
  function NeighbourHit(texts: seq<string>, n: Neighbour): Result<Option<Hit>, string>
    requires n.distance >= 0.0
  {
    if n.index >= |texts| then Success(None)
    else match PyIndex(texts, n.index)
      case None => Failure(IndexOutOfRange)
      case Some(content) =>
        Success(Some(Hit("local-" + IntToString(n.index), Score(n.distance), LocalChunk(n.index), content, None)))
  }

  /** The hits of the first `k` neighbours, stopping at the first `IndexError`. */
  function HitsUpTo(texts: seq<string>, neighbours: seq<Neighbour>, k: nat): Result<seq<Hit>, string>
    requires Distances(neighbours) && k <= |neighbours|
  {
    if k == 0 then Success([])
    else
      var hits :- HitsUpTo(texts, neighbours, k - 1);
      var hit :- NeighbourHit(texts, neighbours[k - 1]);
      Success(hits + if hit.Some? then [hit.value] else [])
  }

  /** `_search_local` over the stored `texts` and the neighbours the index found. */
  function LocalHits(texts: seq<string>, neighbours: seq<Neighbour>): Result<seq<Hit>, string>
    requires Distances(neighbours)
  {
    if |texts| == 0 then Success([]) else HitsUpTo(texts, neighbours, |neighbours|)
  }

  /** `_search_local`: an empty index gives nothing; rows past the end are skipped. */
  method SearchLocal(texts: seq<string>, neighbours: seq<Neighbour>) returns (r: Result<seq<Hit>, string>)
    requires Distances(neighbours)
    ensures r == LocalHits(texts, neighbours)
  {
    if |texts| == 0 {
      return Success([]);
    }
    var hits: seq<Hit> := [];
    for i := 0 to |neighbours|
      invariant HitsUpTo(texts, neighbours, i) == Success(hits)
    {
      var n := neighbours[i];
      if n.index >= |texts| {
        assert HitsUpTo(texts, neighbours, i + 1) == Success(hits + []);
        assert hits + [] == hits;
        continue;
      }
      var content := PyIndex(texts, n.index);
      if content.None? {
        FailureSticks(texts, neighbours, i + 1, |neighbours|);
        return Failure(IndexOutOfRange);
      }
      var hit := Hit("local-" + IntToString(n.index), Score(n.distance), LocalChunk(n.index), content.value, None);
      assert NeighbourHit(texts, n) == Success(Some(hit));
      hits := hits + [hit];
    }
    r := Success(hits);
  }

  /** Once a neighbour raised, the whole search has raised. */
  lemma {:induction false} FailureSticks(texts: seq<string>, neighbours: seq<Neighbour>, k: nat, m: nat)
    requires Distances(neighbours) && k <= m <= |neighbours|
    requires HitsUpTo(texts, neighbours, k) == Failure(IndexOutOfRange)
    ensures HitsUpTo(texts, neighbours, m) == Failure(IndexOutOfRange)
  {
    if m > k {
      FailureSticks(texts, neighbours, k, m - 1);
    }
  }

  /** The test `idx < len(texts)` on a neighbour's row. */
  function RowInTexts(n: nat): Neighbour -> bool
  {
    (nb: Neighbour) => nb.index < n
  }

  /** The neighbours `_search_local` keeps: those whose row is not past the end. */
  function Kept(neighbours: seq<Neighbour>, n: nat): (kept: seq<Neighbour>)
    ensures |kept| <= |neighbours|
    ensures forall i :: 0 <= i < |kept| ==> kept[i] in neighbours && kept[i].index < n
  {
    Filter(RowInTexts(n), neighbours)
  }

  /**
   * The kept neighbours are those whose row is below `n`, every one of them and nothing
   * else, in the order the index returned them.
   */
  lemma KeptInOrder(neighbours: seq<Neighbour>, n: nat)
    ensures Selects(neighbours, RowInTexts(n), Kept(neighbours, n), Positions(RowInTexts(n), neighbours))
    ensures forall i :: 0 <= i < |neighbours| ==>
      (neighbours[i].index < n <==> i in Positions(RowInTexts(n), neighbours))
  {
    FilterSelects(RowInTexts(n), neighbours);
  }

  /**
   * The hit for a kept neighbour: id `local-<row>`, the row as metadata, and the text at
   * that row, where a negative row counts from the end as Python indexing does.
   */
  function LocalHit(texts: seq<string>, n: Neighbour): Hit
    requires -|texts| <= n.index < |texts| && n.distance >= 0.0
  {
    var row := if n.index < 0 then |texts| + n.index else n.index;
    Hit("local-" + IntToString(n.index), Score(n.distance), LocalChunk(n.index), texts[row], None)
  }

  /**
   * `_search_local` raises exactly when some row lies before the start, and otherwise
   * returns one hit per kept neighbour, in the index's order.
   */
  lemma {:induction false} LocalHitsSpec(texts: seq<string>, neighbours: seq<Neighbour>)
    requires Distances(neighbours)
    ensures |texts| == 0 ==> LocalHits(texts, neighbours) == Success([])
    ensures |texts| > 0 ==>
      (LocalHits(texts, neighbours).Success? <==> forall i :: 0 <= i < |neighbours| ==> neighbours[i].index >= -|texts|)
    ensures LocalHits(texts, neighbours).Success? && |texts| > 0 ==>
      var hits, kept := LocalHits(texts, neighbours).value, Kept(neighbours, |texts|);
      |hits| == |kept| && forall j :: 0 <= j < |hits| ==> -|texts| <= kept[j].index && hits[j] == LocalHit(texts, kept[j])
  {
    if |texts| > 0 {
      HitsUpToSpec(texts, neighbours, |neighbours|);
      assert neighbours[..|neighbours|] == neighbours;
    }
  }

  /** The first `k` neighbours raise exactly when one of them lies before the start, else give their kept hits. */
  predicate HitsMatchKept(texts: seq<string>, neighbours: seq<Neighbour>, k: nat)
    requires Distances(neighbours) && k <= |neighbours|
  {
    var r := HitsUpTo(texts, neighbours, k);
    && (r.Success? <==> forall i :: 0 <= i < k ==> neighbours[i].index >= -|texts|)
    && (r.Success? ==>
          var kept := Kept(neighbours[..k], |texts|);
          |r.value| == |kept| && forall j :: 0 <= j < |kept| ==> -|texts| <= kept[j].index && r.value[j] == LocalHit(texts, kept[j]))
  }

  lemma {:induction false} HitsUpToSpec(texts: seq<string>, neighbours: seq<Neighbour>, k: nat)
    requires Distances(neighbours) && k <= |neighbours|
    ensures HitsMatchKept(texts, neighbours, k)
  {
    if k > 0 {
      HitsUpToSpec(texts, neighbours, k - 1);
      HitsUpToStep(texts, neighbours, k);
    } else {
      assert neighbours[..0] == [];
    }
  }

  lemma HitsUpToStep(texts: seq<string>, neighbours: seq<Neighbour>, k: nat)
    requires Distances(neighbours) && 0 < k <= |neighbours|
    requires HitsMatchKept(texts, neighbours, k - 1)
    ensures HitsMatchKept(texts, neighbours, k)
  {
    var n := neighbours[k - 1];
    var prefix := neighbours[..k];
    assert prefix[..k - 1] == neighbours[..k - 1];
    assert prefix[k - 1] == n;
    var kept := Kept(neighbours[..k - 1], |texts|);
    assert Kept(prefix, |texts|) == kept + if n.index < |texts| then [n] else [];
    var before := HitsUpTo(texts, neighbours, k - 1);
    if before.Success? {
      if n.index >= |texts| {
        assert HitsUpTo(texts, neighbours, k) == Success(before.value + []);
        assert before.value + [] == before.value;
      } else if n.index < -|texts| {
        assert HitsUpTo(texts, neighbours, k).Failure?;
      } else {
        var hit := LocalHit(texts, n);
        assert NeighbourHit(texts, n) == Success(Some(hit));
        assert HitsUpTo(texts, neighbours, k) == Success(before.value + [hit]);
      }
    } else {
      var i :| 0 <= i < k - 1 && neighbours[i].index < -|texts|;
    }
  }

  // ---------------------------------------------------------------------------
  // Search: merging the hits of both stores
  // ---------------------------------------------------------------------------

  /** The dictionary key of a hit: its id, or `local-<entries so far>` when it has none. */
  function KeyOf(hit: Hit, size: nat): (key: string)
    ensures hit.id != "" ==> key == hit.id
    ensures hit.id == "" ==> key == "local-" + NatToString(size)
  {
    if hit.id != "" then hit.id else "local-" + NatToString(size)
  }

  /** The `deduped` dictionary: its keys in insertion order and the hit kept under each. */
  datatype Merged = Merged(keys: seq<string>, kept: map<string, Hit>)

  /**
   * One turn of the dedupe loop: an unseen key is added at the end; a seen key takes the
   * hit only when it scores strictly higher, and keeps its place.
   */
  function MergeStep(m: Merged, hit: Hit): Merged {
    var key := KeyOf(hit, |m.kept|);
    if key !in m.kept then Merged(m.keys + [key], m.kept[key := hit])
    else if hit.score > m.kept[key].score then Merged(m.keys, m.kept[key := hit])
    else m
  }

  /** The dictionary after the dedupe loop has seen all of `hits`. */
  function Merge(hits: seq<Hit>): Merged {
    if hits == [] then Merged([], map[]) else MergeStep(Merge(hits[..|hits| - 1]), hits[|hits| - 1])
  }

  /** The key each hit was filed under, in order: its id, or the fallback for the dictionary size at its turn. */
  function Filed(hits: seq<Hit>): (keys: seq<string>)
    ensures |keys| == |hits|
  {
    if hits == [] then []
    else Filed(hits[..|hits| - 1]) + [KeyOf(hits[|hits| - 1], |Merge(hits[..|hits| - 1]).kept|)]
  }

  /** The keys are distinct, they are the dictionary's, and a kept hit with an id is kept under it. */
  ghost predicate WellMerged(m: Merged) {
    && InsertionOrder(m.keys, m.kept)
    && (forall k :: k in m.kept ==> m.kept[k].id == "" || m.kept[k].id == k)
  }

  /** Every hit is still represented under the key it was filed under, by a hit scoring at least as high. */
  predicate KeepsBest(hits: seq<Hit>, filed: seq<string>, m: Merged)
    requires |filed| == |hits|
  {
    forall i :: 0 <= i < |hits| ==> filed[i] in m.kept && m.kept[filed[i]].score >= hits[i].score
  }

  /** The hit at `j` is the first of the highest-scoring hits filed under `k`. */
  predicate FirstBestAt(hits: seq<Hit>, filed: seq<string>, k: string, j: nat)
    requires |filed| == |hits|
  {
    && j < |hits| && filed[j] == k
    && (forall i :: 0 <= i < j && filed[i] == k ==> hits[i].score < hits[j].score)
    && (forall i :: j < i < |hits| && filed[i] == k ==> hits[i].score <= hits[j].score)
  }

  /** Where each kept hit came from: its position in the hits the loop has seen. */
  function Origins(hits: seq<Hit>): map<string, nat> {
    if hits == [] then map[]
    else
      var prefix, hit := hits[..|hits| - 1], hits[|hits| - 1];
      OriginStep(Origins(prefix), Merge(prefix), hit, |hits| - 1)
  }

  function OriginStep(origins: map<string, nat>, m: Merged, hit: Hit, position: nat): map<string, nat> {
    var key := KeyOf(hit, |m.kept|);
    if key !in m.kept || hit.score > m.kept[key].score then origins[key := position] else origins
  }

  /** Every kept hit sits at its origin, the first of the highest-scoring hits filed under its key. */
  predicate FromOrigins(hits: seq<Hit>, filed: seq<string>, m: Merged, origins: map<string, nat>)
    requires |filed| == |hits|
  {
    forall k :: k in m.kept ==> k in origins && FirstBestAt(hits, filed, k, origins[k]) && hits[origins[k]] == m.kept[k]
  }

  /**
   * The dedupe loop keeps, under each key, the first of the highest-scoring hits filed
   * under it (ties keep the earlier hit); the keys are distinct and in first-seen order.
   */
  lemma MergeSpec(hits: seq<Hit>)
    ensures WellMerged(Merge(hits))
    ensures KeepsBest(hits, Filed(hits), Merge(hits))
    ensures FromOrigins(hits, Filed(hits), Merge(hits), Origins(hits))
  {
    MergeWell(hits);
    MergeBest(hits);
    MergeOrigins(hits);
  }

  lemma {:induction false} MergeWell(hits: seq<Hit>)
    ensures WellMerged(Merge(hits))
  {
    if hits != [] {
      MergeWell(hits[..|hits| - 1]);
      MergeWellStep(Merge(hits[..|hits| - 1]), hits[|hits| - 1]);
    }
  }

  lemma {:induction false} MergeBest(hits: seq<Hit>)
    ensures KeepsBest(hits, Filed(hits), Merge(hits))
  {
    if hits != [] {
      var prefix, hit := hits[..|hits| - 1], hits[|hits| - 1];
      MergeBest(prefix);
      SnocLast(hits);
      MergeBestStep(prefix, Filed(prefix), Merge(prefix), hit);
    }
  }

  lemma {:induction false} MergeOrigins(hits: seq<Hit>)
    ensures FromOrigins(hits, Filed(hits), Merge(hits), Origins(hits))
  {
    if hits != [] {
      var prefix, hit := hits[..|hits| - 1], hits[|hits| - 1];
      MergeOrigins(prefix);
      MergeBest(prefix);
      SnocLast(hits);
      MergeOriginStep(prefix, Filed(prefix), Merge(prefix), Origins(prefix), hit);
    }
  }

  lemma MergeWellStep(m: Merged, hit: Hit)
    requires WellMerged(m)
    ensures WellMerged(MergeStep(m, hit))
  {
    var key := KeyOf(hit, |m.kept|);
    if key !in m.kept {
      DictInsert(m.keys, m.kept, key, hit);
    } else {
      DictUpdate(m.keys, m.kept, key, hit);
    }
  }

  /** A Python dict's keys in insertion order: distinct, and exactly the dict's keys. */
  ghost predicate InsertionOrder<K, V>(keys: seq<K>, dict: map<K, V>) {
    && |dict| == |keys|
    && (forall i, j :: 0 <= i < j < |keys| ==> keys[i] != keys[j])
    && (forall k :: k in dict ==> k in keys)
    && (forall i :: 0 <= i < |keys| ==> keys[i] in dict)
  }

  /** Assigning a new key appends it to the insertion order. */
  lemma DictInsert<K, V>(keys: seq<K>, dict: map<K, V>, key: K, v: V)
    requires InsertionOrder(keys, dict) && key !in dict
    ensures InsertionOrder(keys + [key], dict[key := v])
  {
    assert |dict[key := v]| == |dict| + 1;
  }

  /** Assigning an existing key keeps the insertion order. */
  lemma DictUpdate<K, V>(keys: seq<K>, dict: map<K, V>, key: K, v: V)
    requires InsertionOrder(keys, dict) && key in dict
    ensures InsertionOrder(keys, dict[key := v])
  {
  }

  lemma MergeBestStep(prefix: seq<Hit>, filed: seq<string>, m: Merged, hit: Hit)
    requires |filed| == |prefix| && KeepsBest(prefix, filed, m)
    ensures KeepsBest(prefix + [hit], filed + [KeyOf(hit, |m.kept|)], MergeStep(m, hit))
  {
  }

  lemma MergeOriginStep(prefix: seq<Hit>, filed: seq<string>, m: Merged, origins: map<string, nat>, hit: Hit)
    requires |filed| == |prefix| && KeepsBest(prefix, filed, m) && FromOrigins(prefix, filed, m, origins)
    ensures FromOrigins(prefix + [hit], filed + [KeyOf(hit, |m.kept|)], MergeStep(m, hit),
                        OriginStep(origins, m, hit, |prefix|))
  {
    var n := |prefix| + 1;
    var key := KeyOf(hit, |m.kept|);
    var hits, keys, m', origins' := prefix + [hit], filed + [key], MergeStep(m, hit), OriginStep(origins, m, hit, |prefix|);
    forall k | k in m'.kept ensures k in origins' && FirstBestAt(hits, keys, k, origins'[k]) && hits[origins'[k]] == m'.kept[k] {
      if k == key && (key !in m.kept || hit.score > m.kept[key].score) {
        // the new hit is kept: every earlier hit under its key scored lower
        forall i | 0 <= i < n - 1 && keys[i] == k ensures hits[i].score < hit.score {
          assert filed[i] in m.kept;
        }
      } else {
        // the kept hit is the one kept before; the new hit, if filed under `k`, does not beat it
        var j := origins[k];
        assert FirstBestAt(prefix, filed, k, j) && prefix[j] == m.kept[k];
        assert hits[j] == prefix[j];
      }
    }
  }

  /** The dedupe loop of `search_vectors`: a dictionary filled in the order of `results`. */
  method MergeHits(results: seq<Hit>) returns (m: Merged)
    ensures m == Merge(results)
  {
    var keys: seq<string> := [];
    var deduped: map<string, Hit> := map[];
    for i := 0 to |results|
      invariant Merged(keys, deduped) == Merge(results[..i])
    {
      var item := results[i];
      var key := if item.id != "" then item.id else "local-" + NatToString(|deduped|);
      if key !in deduped {
        keys := keys + [key];
        deduped := deduped[key := item];
      } else if item.score > deduped[key].score {
        deduped := deduped[key := item];
      }
      assert results[..i + 1][..i] == results[..i];
    }
    assert results[..|results|] == results;
    m := Merged(keys, deduped);
  }

  // ---------------------------------------------------------------------------
  // Search: ranking and truncating
  // ---------------------------------------------------------------------------

  /** `deduped.values()`: the kept hits in key-insertion order. */
  function Values(m: Merged): (values: seq<Hit>)
    requires forall i :: 0 <= i < |m.keys| ==> m.keys[i] in m.kept
    ensures |values| == |m.keys|
    ensures forall i :: 0 <= i < |m.keys| ==> values[i] == m.kept[m.keys[i]]
  {
    seq(|m.keys|, i requires 0 <= i < |m.keys| => m.kept[m.keys[i]])
  }

  /** The sort key `r.get("score", 0)`. */
  function ScoreOf(hit: Hit): real {
    hit.score
  }

  /** Two hits do not share an id (hits without one never clash). */
  function IdsDiffer(a: Hit, b: Hit): bool {
    a.id == "" || a.id != b.id
  }

  /** The merged hits in dictionary order. */
  function MergedHits(candidates: seq<Hit>): seq<Hit> {
    MergeWell(candidates);
    Values(Merge(candidates))
  }

  /** `sorted(deduped.values(), key=score, reverse=True)[:top_k]`. */
  function Ranked(candidates: seq<Hit>, topK: int): seq<Hit> {
    PySlice(SortDesc(MergedHits(candidates), ScoreOf), 0, topK)
  }

  /**
   * The search result is in non-increasing score order, holds at most `top_k` hits and
   * no two with the same id, and each of them is a candidate; every merged hit it leaves
   * out scores no higher than any it keeps; and hits with equal scores keep the order of
   * the merged dictionary.
   */
  lemma RankedSpec(candidates: seq<Hit>, topK: int)
    ensures var r, merged := Ranked(candidates, topK), MergedHits(candidates);
      && NonIncreasing(r, ScoreOf)
      && (topK >= 0 ==> |r| == Min(topK, |merged|))
      && (forall h :: h in r ==> h in candidates)
      && Pairwise(r, IdsDiffer)
      && (forall h, i :: h in multiset(merged) - multiset(r) && 0 <= i < |r| ==> ScoreOf(r[i]) >= ScoreOf(h))
      && (forall v :: IsPrefix(WithKey(r, ScoreOf, v), WithKey(merged, ScoreOf, v)))
  {
    var merged := MergedHits(candidates);
    var sorted := SortDesc(merged, ScoreOf);
    var r := Ranked(candidates, topK);
    PySlicePrefix(sorted, topK);
    SortDescLength(merged, ScoreOf);
    assert r == sorted[..|r|];
    TopOfSort(merged, ScoreOf, |r|);
    RankedMembers(candidates, merged, r);
    MergedIdsDiffer(candidates);
    SortDescPairwise(merged, ScoreOf, IdsDiffer);
  }

  /** Whatever a prefix of the sorted merged hits holds is a candidate. */
  lemma RankedMembers(candidates: seq<Hit>, merged: seq<Hit>, r: seq<Hit>)
    requires merged == MergedHits(candidates) && IsPrefix(r, SortDesc(merged, ScoreOf))
    ensures forall h :: h in r ==> h in candidates
  {
    var sorted := SortDesc(merged, ScoreOf);
    SortDescElements(merged, ScoreOf);
    MergedFromCandidates(candidates);
    forall h | h in r ensures h in candidates {
      assert h in sorted;
      assert h in multiset(merged);
    }
  }

  /** `s[:hi]` is a prefix of `s`, of length `min(hi, len(s))` for `hi >= 0`. */
  lemma PySlicePrefix<T>(s: seq<T>, hi: int)
    ensures IsPrefix(PySlice(s, 0, hi), s)
    ensures hi >= 0 ==> |PySlice(s, 0, hi)| == Min(hi, |s|)
  {
  }

  /** Every merged hit is one of the candidates. */
  lemma MergedFromCandidates(candidates: seq<Hit>)
    ensures forall h :: h in MergedHits(candidates) ==> h in candidates
  {
    MergeWell(candidates);
    MergeOrigins(candidates);
    var m, origins, merged := Merge(candidates), Origins(candidates), MergedHits(candidates);
    forall i | 0 <= i < |merged| ensures merged[i] in candidates {
      var k := m.keys[i];
      assert k in m.kept;
      assert candidates[origins[k]] == m.kept[k] == merged[i];
    }
  }

  /** The merged hits carry distinct ids. */
  lemma MergedIdsDiffer(candidates: seq<Hit>)
    ensures Pairwise(MergedHits(candidates), IdsDiffer)
  {
    MergeWell(candidates);
    var m, merged := Merge(candidates), MergedHits(candidates);
    forall i, j | 0 <= i < j < |merged| ensures IdsDiffer(merged[i], merged[j]) {
      assert m.keys[i] != m.keys[j];
      assert m.keys[i] in m.kept && m.keys[j] in m.kept;
    }
  }


  // ---------------------------------------------------------------------------
  // Search: both stores together
  // ---------------------------------------------------------------------------

  /**
   * The `results` list `search_vectors` builds: the remote hits when the remote store is
   * used and its search did not raise (`remoteHits == None` is a raise, which is logged
   * and dropped), then the local hits when the local store is used. A failure is the
   * exception the call raises.
   */
  function Candidates(target: string, available: bool, remoteHits: Option<seq<Hit>>,
                      texts: seq<string>, neighbours: seq<Neighbour>): Result<seq<Hit>, string>
    requires Distances(neighbours)
  {
    var useQdrant :- UseQdrant(target, available);
    var remote := if useQdrant && remoteHits.Some? then TagRemote(remoteHits.value) else [];
    if UseLocal(target, available) then
      var local :- LocalHits(texts, neighbours);
      Success(remote + local)
    else
      Success(remote)
  }

  /** `search_vectors(query, top_k, target)`: the candidates merged, ranked and cut to `top_k`. */
  function Search(topK: int, target: string, available: bool, remoteHits: Option<seq<Hit>>,
                  texts: seq<string>, neighbours: seq<Neighbour>): Result<seq<Hit>, string>
    requires Distances(neighbours)
  {
    var candidates :- Candidates(target, available, remoteHits, texts, neighbours);
    Success(Ranked(candidates, topK))
  }

  /**
   * `search_vectors` over the two stores. The query embedding is already applied:
   * `remoteHits` is what the remote search returned (`None` when it raised) and
   * `neighbours` what the local index found.
   */
  method SearchVectors(topK: int, target: string, remote: RemoteStore, remoteHits: Option<seq<Hit>>,
                       local: LocalStore, neighbours: seq<Neighbour>) returns (r: Result<seq<Hit>, string>)
    requires Distances(neighbours)
    ensures r == Search(topK, target, remote.available, remoteHits, local.Texts(), neighbours)
  {
    var results :- CollectResults(target, remote, remoteHits, local, neighbours);
    var deduped := MergeHits(results);
    MergeWell(results);
    assert Values(deduped) == MergedHits(results);
    r := Success(PySlice(SortDesc(Values(deduped), ScoreOf), 0, topK));
  }

  /** The first half of `search_vectors`: the `results` list of both stores' hits. */
  method CollectResults(target: string, remote: RemoteStore, remoteHits: Option<seq<Hit>>,
                        local: LocalStore, neighbours: seq<Neighbour>) returns (r: Result<seq<Hit>, string>)
    requires Distances(neighbours)
    ensures r == Candidates(target, remote.available, remoteHits, local.Texts(), neighbours)
  {
    var useQdrant :- UseQdrant(target, remote.available);
    var results: seq<Hit> := [];
    if useQdrant && remoteHits.Some? {
      results := TagRemote(remoteHits.value);
    }
    if UseLocal(target, remote.available) {
      var localHits :- SearchLocal(local.Texts(), neighbours);
      results := results + localHits;
    }
    r := Success(results);
  }

  /**
   * `search_vectors` raises exactly when `"qdrant"` is asked of an unavailable remote
   * store, or when the local store is searched, holds rows, and the index reports a row
   * before the start of the texts.
   */
  lemma SearchFails(topK: int, target: string, available: bool, remoteHits: Option<seq<Hit>>,
                    texts: seq<string>, neighbours: seq<Neighbour>)
    requires Distances(neighbours)
    ensures Search(topK, target, available, remoteHits, texts, neighbours).Failure? <==>
      || (target == "qdrant" && !available)
      || (UseLocal(target, available) && |texts| > 0 && exists i :: 0 <= i < |neighbours| && neighbours[i].index < -|texts|)
  {
    LocalHitsSpec(texts, neighbours);
  }

  /**
   * Each hit returned comes from the store its `backend` names: a tagged hit is a hit of
   * the remote search, which was used and did not raise; an untagged one is a local hit.
   */
  lemma SearchSources(topK: int, target: string, available: bool, remoteHits: Option<seq<Hit>>,
                      texts: seq<string>, neighbours: seq<Neighbour>)
    requires Distances(neighbours)
    requires Search(topK, target, available, remoteHits, texts, neighbours).Success?
    ensures forall h :: h in Search(topK, target, available, remoteHits, texts, neighbours).value ==>
      if h.backend.Some? then
        UseQdrant(target, available) == Success(true) && remoteHits.Some? && h in TagRemote(remoteHits.value)
      else
        UseLocal(target, available) && h in LocalHits(texts, neighbours).value
  {
    var candidates := Candidates(target, available, remoteHits, texts, neighbours).value;
    RankedSpec(candidates, topK);
    LocalHitsUntagged(texts, neighbours);
  }

  /** Local hits carry no `backend` key. */
  lemma LocalHitsUntagged(texts: seq<string>, neighbours: seq<Neighbour>)
    requires Distances(neighbours)
    ensures LocalHits(texts, neighbours).Success? ==> forall h :: h in LocalHits(texts, neighbours).value ==> h.backend.None?
  {
    LocalHitsSpec(texts, neighbours);
  }

  /**
   * Under `"auto"`, a remote store that is down or whose search raised leaves exactly the
   * ranked local hits; `"local"` never looks at the remote store.
   */
  lemma SearchFallsBackToLocal(topK: int, target: string, available: bool, remoteHits: Option<seq<Hit>>,
                               texts: seq<string>, neighbours: seq<Neighbour>)
    requires Distances(neighbours)
    requires target == "local" || (target == "auto" && (!available || remoteHits.None?))
    ensures var local := LocalHits(texts, neighbours);
      Search(topK, target, available, remoteHits, texts, neighbours)
        == if local.Success? then Success(Ranked(local.value, topK)) else Failure(local.error)
  {
    var local := LocalHits(texts, neighbours);
    if local.Success? {
      assert [] + local.value == local.value;
    }
  }

  // ---------------------------------------------------------------------------
  // The RAG answer and the summary
  // ---------------------------------------------------------------------------

  /** What `rag_answer` returns; `context == None` is the answer without a `"context"` key. */
  datatype Answer = Answer(answer: string, context: Option<string>, sources: seq<Hit>)

  /** The abstract summarisation model: it maps a text and a maximum length to a summary. */
  type Summarizer = (string, int) -> string

  /** The test `hit.get("content")` on a hit. */
  predicate HasContent(hit: Hit)
  {
    hit.content != []
  }

  /** The content of a hit. */
  function ContentOf(hit: Hit): string
  {
    hit.content
  }

  /** The contents of the hits that have one. */
  function Contents(hits: seq<Hit>): (contents: seq<string>)
    ensures |contents| <= |hits|
    ensures forall i :: 0 <= i < |contents| ==> contents[i] != [] && contents[i] in ContentsOf(hits)
    ensures contents == [] <==> forall i :: 0 <= i < |hits| ==> hits[i].content == []
  {
    var kept := Filter(HasContent, hits);
    MapAt(ContentOf, kept);
    Map(ContentOf, kept)
  }

  /**
   * The contents are those of the hits that have one, every one of them and nothing else,
   * in the order of the hits.
   */
  lemma ContentsInOrder(hits: seq<Hit>)
    ensures var at := Positions(HasContent, hits);
      && |at| == |Contents(hits)|
      && (forall j :: 0 <= j < |at| ==> at[j] < |hits| && Contents(hits)[j] == hits[at[j]].content)
      && (forall j, k :: 0 <= j < k < |at| ==> at[j] < at[k])
      && (forall i :: 0 <= i < |hits| ==> (hits[i].content != [] <==> i in at))
  {
    FilterSelects(HasContent, hits);
    MapAt(ContentOf, Filter(HasContent, hits));
  }

  /** The content of every hit, empty ones included. */
  function ContentsOf(hits: seq<Hit>): (contents: set<string>)
    ensures forall i :: 0 <= i < |hits| ==> hits[i].content in contents
    ensures forall c :: c in contents ==> exists i :: 0 <= i < |hits| && hits[i].content == c
  {
    set i | 0 <= i < |hits| :: hits[i].content
  }

  const MaxSummary := 160
  const MaxInput := 1024

  /**
   * `summarize_text(text, max_length)`: nothing for a blank text, the model's summary of
   * the first 1024 characters of the stripped text when a model loaded, and otherwise the
   * stripped text up to its third `.`.
   */
  function SummarizeText(text: string, maxLength: int, summarizer: Option<Summarizer>): (r: string)
    ensures AllSpace(text) ==> r == ""
    ensures !AllSpace(text) && summarizer.Some? ==> r == summarizer.value(PySlice(Strip(text), 0, MaxInput), maxLength)
    ensures !AllSpace(text) && summarizer.None? ==>
      var snippet := Strip(text);
      r == Strip(snippet[..CutAt(snippet, '.', 3)])
  {
    var snippet := Strip(text);
    if snippet == [] then ""
    else if summarizer.Some? then summarizer.value(PySlice(snippet, 0, MaxInput), maxLength)
    else
      FirstPieces(snippet, '.', 3);
      Strip(Join(PySlice(SplitOn(snippet, '.'), 0, 3), "."))
  }

  /** The fallback summary is the stripped text itself when it holds fewer than three `.`. */
  lemma ShortSummaryIsText(text: string)
    requires !AllSpace(text) && CountChar(Strip(text), '.') < 3
    ensures SummarizeText(text, MaxSummary, None) == Strip(text)
  {
    var snippet := Strip(text);
    StripStripped(snippet);
    var p := CutAt(snippet, '.', 3);
    if p < |snippet| {
      CountPrefix(snippet, p, '.');
      assert false;
    }
    assert snippet[..p] == snippet;
  }

  /** A prefix holds no more occurrences than the whole text. */
  lemma {:induction false} CountPrefix(s: string, p: nat, c: char)
    requires p < |s| && s[p] == c
    ensures CountChar(s[..p], c) < CountChar(s, c)
  {
    if p > 0 {
      CountPrefix(s[1..], p - 1, c);
      assert s[..p][1..] == s[1..][..p - 1];
    }
  }

  /** The answer `rag_answer` builds from the search hits. */
  function AnswerFrom(query: string, hits: seq<Hit>, summarizer: Option<Summarizer>): (a: Answer)
    ensures a.context.None? <==> forall i :: 0 <= i < |hits| ==> hits[i].content == []
    ensures a.context.None? ==> a == Answer(NoContextAnswer, None, [])
    ensures a.context.Some? ==> a.sources == hits && a.context.value != []
  {
    var contents := Contents(hits);
    var context := Join(contents, "\n\n");
    JoinEmpty(contents, "\n\n");
    if context == [] then Answer(NoContextAnswer, None, [])
    else Answer(SummarizeText(context + "\n\nQuestion: " + query, MaxSummary, summarizer), Some(context), hits)
  }

  /** Without any content the answer is the fixed one whatever the model: it is never called. */
  lemma NoContextSkipsSummarizer(query: string, hits: seq<Hit>, s1: Option<Summarizer>, s2: Option<Summarizer>)
    requires forall i :: 0 <= i < |hits| ==> hits[i].content == []
    ensures AnswerFrom(query, hits, s1) == AnswerFrom(query, hits, s2)
  {
  }

  /**
   * With content, the context is the non-empty contents joined by a blank line, and the
   * answer summarises the context followed by the question.
   */
  lemma AnswerSummarisesContext(query: string, hits: seq<Hit>, summarizer: Option<Summarizer>)
    requires exists i :: 0 <= i < |hits| && hits[i].content != []
    ensures var a, context := AnswerFrom(query, hits, summarizer), Join(Contents(hits), "\n\n");
      && a.context == Some(context)
      && a.answer == SummarizeText(context + "\n\nQuestion: " + query, MaxSummary, summarizer)
      && a.sources == hits
  {
  }

  /** `rag_answer(query, top_k, target)`: the search, then the answer built from its hits. */
  method RagAnswer(query: string, topK: int, target: string, remote: RemoteStore, remoteHits: Option<seq<Hit>>,
                   local: LocalStore, neighbours: seq<Neighbour>, summarizer: Option<Summarizer>)
    returns (r: Result<Answer, string>)
    requires Distances(neighbours)
    ensures var hits := Search(topK, target, remote.available, remoteHits, local.Texts(), neighbours);
      r == if hits.Success? then Success(AnswerFrom(query, hits.value, summarizer)) else Failure(hits.error)
  {
    var hits :- SearchVectors(topK, target, remote, remoteHits, local, neighbours);
    r := Success(AnswerFrom(query, hits, summarizer));
  }
}
