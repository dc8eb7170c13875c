/**
 * Duplicate detection (`backend/rag/duplicate.py`): an exact test by content hash, and a
 * detector that searches the stores for the new text and keeps the candidates whose
 * embedding is at least `threshold` cosine-similar to it.
 */
module Duplicates {
  import opened Results
  import opened PyStr
  import opened Stores
  import opened VectorService

  /** The md5 hex digest of a text's UTF-8 bytes; the hash itself is a parameter. */
  type Digest = string

  /** `is_duplicate(text, existing_hashes)`: whether the text's digest is already known. */
  function IsDuplicate(text: string, existing: set<Digest>, md5: string -> Digest): (r: bool)
    ensures r <==> exists h :: h in existing && h == md5(text)
  {
    md5(text) in existing
  }

  /** Once its digest is recorded, a text (and every text with the same digest) is a duplicate. */
  lemma DuplicateAfterRecording(text: string, other: string, existing: set<Digest>, md5: string -> Digest)
    requires md5(other) == md5(text)
    ensures IsDuplicate(other, existing + {md5(text)}, md5)
    ensures IsDuplicate(text, existing, md5) ==> IsDuplicate(text, existing + {md5(other)}, md5)
  {
  }

  /** `DuplicateDetector(threshold=0.85, target="auto")`; neither field ever changes. */
  datatype Detector = Detector(threshold: real, target: string)

  const DefaultDetector := Detector(0.85, "auto")

  /** `{"text": ..., "metadata": ..., "similarity": ...}`. */
  datatype Duplicate = Duplicate(text: string, metadata: HitMetadata, similarity: real)

  /** `np.dot(a, b)` for vectors of one length. */
  function Dot(a: Embedding, b: Embedding): real
    requires |a| == |b|
  {
    if a == [] then 0.0 else Dot(a[..|a| - 1], b[..|b| - 1]) + a[|a| - 1] * b[|b| - 1]
  }

  /**
   * `_cosine(a, b)`: the dot product over the product of the norms, and `0.0` when that
   * product is zero. The Euclidean norm is a parameter (a square root).
   */
  function Cosine(a: Embedding, b: Embedding, norm: Embedding -> real): (r: real)
    requires |a| == |b|
    ensures norm(a) * norm(b) == 0.0 ==> r == 0.0
    ensures norm(a) * norm(b) != 0.0 ==> r * (norm(a) * norm(b)) == Dot(a, b)
  {
    var denom := norm(a) * norm(b);
    if denom == 0.0 then 0.0 else Dot(a, b) / denom
  }

  /** A zero vector on either side makes the similarity `0.0`. */
  lemma ZeroNormIsDissimilar(a: Embedding, b: Embedding, norm: Embedding -> real)
    requires |a| == |b| && (norm(a) == 0.0 || norm(b) == 0.0)
    ensures Cosine(a, b, norm) == 0.0
  {
  }

  /** What one candidate contributes: nothing without content or below the threshold. */
  function Verdict(det: Detector, query: Embedding, candidate: Hit, embed: string -> Embedding,
                   norm: Embedding -> real): Option<Duplicate>
    requires |embed(candidate.content)| == |query|
  {
    if candidate.content == [] then None
    else
      var similarity := Cosine(query, embed(candidate.content), norm);
      if similarity >= det.threshold then Some(Duplicate(candidate.content, candidate.metadata, similarity))
      else None
  }

  /** The embedder gives every text a vector of the same length. */
  ghost predicate FixedDimension(embed: string -> Embedding) {
    forall t, u :: |embed(t)| == |embed(u)|
  }

  /** The duplicates among the candidates, in the candidates' order. */
  function DuplicatesOf(det: Detector, query: Embedding, candidates: seq<Hit>, embed: string -> Embedding,
                        norm: Embedding -> real): (duplicates: seq<Duplicate>)
    requires forall j :: 0 <= j < |candidates| ==> |embed(candidates[j].content)| == |query|
    ensures |duplicates| <= |candidates|
  {
    if candidates == [] then []
    else
      var init, last := candidates[..|candidates| - 1], candidates[|candidates| - 1];
      var v := Verdict(det, query, last, embed, norm);
      DuplicatesOf(det, query, init, embed, norm) + if v.Some? then [v.value] else []
  }

  /** The filtering loop of `check_duplicates` over the search candidates. */
  method FilterCandidates(det: Detector, query: Embedding, candidates: seq<Hit>, embed: string -> Embedding,
                          norm: Embedding -> real)
    returns (duplicates: seq<Duplicate>)
    requires forall j :: 0 <= j < |candidates| ==> |embed(candidates[j].content)| == |query|
    ensures duplicates == DuplicatesOf(det, query, candidates, embed, norm)
  {
    duplicates := [];
    for i := 0 to |candidates|
      invariant duplicates == DuplicatesOf(det, query, candidates[..i], embed, norm)
    {
      assert candidates[..i + 1][..i] == candidates[..i];
      var candidate := candidates[i];
      var content := candidate.content;
      if content == [] {
        assert duplicates + [] == duplicates;
        continue;
      }
      var similarity := Cosine(query, embed(content), norm);
      if similarity >= det.threshold {
        duplicates := duplicates + [Duplicate(content, candidate.metadata, similarity)];
      }
    }
    assert candidates[..|candidates|] == candidates;
  }

  /**
   * `check_duplicates(new_text, top_k)` with the detector's target. Blank text gives no
   * duplicates without searching; otherwise the search runs as `search_vectors` does and
   * its exceptions propagate.
   */
  function CheckDuplicates(det: Detector, newText: string, topK: int, embed: string -> Embedding,
                           norm: Embedding -> real, available: bool, remoteHits: Option<seq<Hit>>,
                           texts: seq<string>, neighbours: seq<Neighbour>): Result<seq<Duplicate>, string>
    requires Distances(neighbours) && FixedDimension(embed)
  {
    if AllSpace(newText) then Success([])
    else
      var candidates :- Search(topK, det.target, available, remoteHits, texts, neighbours);
      Success(DuplicatesOf(det, embed(newText), candidates, embed, norm))
  }

  /** `DuplicateDetector.check_duplicates` over the two stores. */
  method CheckDuplicatesIn(det: Detector, newText: string, topK: int, embed: string -> Embedding,
                           norm: Embedding -> real, remote: RemoteStore, remoteHits: Option<seq<Hit>>,
                           local: LocalStore, neighbours: seq<Neighbour>)
    returns (r: Result<seq<Duplicate>, string>)
    requires Distances(neighbours) && FixedDimension(embed)
    ensures r == CheckDuplicates(det, newText, topK, embed, norm, remote.available, remoteHits, local.Texts(), neighbours)
  {
    if AllSpace(newText) {
      return Success([]);
    }
    var query := embed(newText);
    var candidates :- SearchVectors(topK, det.target, remote, remoteHits, local, neighbours);
    var duplicates := FilterCandidates(det, query, candidates, embed, norm);
    r := Success(duplicates);
  }

  /**
   * The duplicates are exactly the candidates with content whose similarity reaches the
   * threshold, in the candidates' order: `sources` names the candidate each comes from.
   */
  predicate PicksCandidates(det: Detector, query: Embedding, candidates: seq<Hit>, embed: string -> Embedding,
                            norm: Embedding -> real, duplicates: seq<Duplicate>, sources: seq<nat>)
    requires forall j :: 0 <= j < |candidates| ==> |embed(candidates[j].content)| == |query|
  {
    && |sources| == |duplicates|
    && (forall j :: 0 <= j < |sources| ==> sources[j] < |candidates|)
    && (forall j, k :: 0 <= j < k < |sources| ==> sources[j] < sources[k])
    && (forall j :: 0 <= j < |sources| ==>
          var c := candidates[sources[j]];
          && c.content != []
          && duplicates[j] == Duplicate(c.content, c.metadata, Cosine(query, embed(c.content), norm))
          && duplicates[j].similarity >= det.threshold)
    && (forall i ::
          (0 <= i < |candidates| && candidates[i].content != []
           && Cosine(query, embed(candidates[i].content), norm) >= det.threshold) ==> i in sources)
  }

  /** The candidates each duplicate came from. */
  function Sources(det: Detector, query: Embedding, candidates: seq<Hit>, embed: string -> Embedding,
                   norm: Embedding -> real): seq<nat>
    requires forall j :: 0 <= j < |candidates| ==> |embed(candidates[j].content)| == |query|
  {
    if candidates == [] then []
    else
      var init := candidates[..|candidates| - 1];
      var v := Verdict(det, query, candidates[|candidates| - 1], embed, norm);
      Sources(det, query, init, embed, norm) + if v.Some? then [|candidates| - 1] else []
  }

  /**
   * The filter is an order-preserving selection: every duplicate is a candidate with
   * content, carries its text, its metadata and its similarity, which reaches the
   * threshold, and no candidate that reaches it is missed.
   */
  lemma {:induction false} DuplicatesSpec(det: Detector, query: Embedding, candidates: seq<Hit>,
                                          embed: string -> Embedding, norm: Embedding -> real)
    requires forall j :: 0 <= j < |candidates| ==> |embed(candidates[j].content)| == |query|
    ensures PicksCandidates(det, query, candidates, embed, norm, DuplicatesOf(det, query, candidates, embed, norm),
                            Sources(det, query, candidates, embed, norm))
  {
    if candidates != [] {
      var init := candidates[..|candidates| - 1];
      DuplicatesSpec(det, query, init, embed, norm);
      DuplicatesStep(det, query, candidates, embed, norm);
    }
  }

  lemma DuplicatesStep(det: Detector, query: Embedding, candidates: seq<Hit>, embed: string -> Embedding,
                       norm: Embedding -> real)
    requires candidates != []
    requires forall j :: 0 <= j < |candidates| ==> |embed(candidates[j].content)| == |query|
    requires var init := candidates[..|candidates| - 1];
      PicksCandidates(det, query, init, embed, norm, DuplicatesOf(det, query, init, embed, norm),
                      Sources(det, query, init, embed, norm))
    ensures PicksCandidates(det, query, candidates, embed, norm, DuplicatesOf(det, query, candidates, embed, norm),
                            Sources(det, query, candidates, embed, norm))
  {
    var n := |candidates| - 1;
    var init := candidates[..n];
    assert forall j :: 0 <= j < n ==> init[j] == candidates[j];
    var v := Verdict(det, query, candidates[n], embed, norm);
    var sources := Sources(det, query, init, embed, norm);
    if v.Some? {
      assert Sources(det, query, candidates, embed, norm) == sources + [n];
    } else {
      assert Sources(det, query, candidates, embed, norm) == sources + [];
      assert DuplicatesOf(det, query, candidates, embed, norm) == DuplicatesOf(det, query, init, embed, norm) + [];
    }
  }

  /**
   * A check returns no more duplicates than `top_k`, since the search returns no more
   * candidates; and blank text finds none.
   */
  lemma AtMostTopK(det: Detector, newText: string, topK: int, embed: string -> Embedding, norm: Embedding -> real,
                   available: bool, remoteHits: Option<seq<Hit>>, texts: seq<string>, neighbours: seq<Neighbour>)
    requires Distances(neighbours) && FixedDimension(embed) && topK >= 0
    ensures var r := CheckDuplicates(det, newText, topK, embed, norm, available, remoteHits, texts, neighbours);
      r.Success? ==> |r.value| <= topK
    ensures AllSpace(newText) ==>
      CheckDuplicates(det, newText, topK, embed, norm, available, remoteHits, texts, neighbours) == Success([])
  {
    var search := Search(topK, det.target, available, remoteHits, texts, neighbours);
    if !AllSpace(newText) && search.Success? {
      var candidates := Candidates(det.target, available, remoteHits, texts, neighbours).value;
      RankedSpec(candidates, topK);
    }
  }
}
