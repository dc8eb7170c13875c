/**
 * The answer of the local stack (`answer_question` in `backend/local_stack/rag_engine.py`):
 * the stored chunks the index returns for the question, the blank ones dropped, framed by
 * a fixed template. Every exception becomes an answer too, so it never raises.
 */
module RagEngine {
  import opened Results
  import opened PyStr

  const NoDocuments := "No documents uploaded yet. Please upload PDF/image files first."
  const NoRelevant := "No relevant information found in uploaded documents."
  const Header := "Based on the uploaded documents:\n\n"
  const Footer := "\n\nRelevant to your question: "
  const ErrorPrefix := "Error processing question: "

  /** The test `i < len(texts)` on a row the index returned. */
  function RowBelow(n: nat): int -> bool
  {
    i => i < n
  }

  /** The rows the index returned that `i < len(texts)` keeps. */
  function KeptRows(indices: seq<int>, n: nat): (kept: seq<int>)
    ensures |kept| <= |indices|
    ensures forall j :: 0 <= j < |kept| ==> kept[j] in indices && kept[j] < n
  {
    Filter(RowBelow(n), indices)
  }

  /**
   * The kept rows are the returned rows below `n`, every one of them and nothing else,
   * in the order the index returned them.
   */
  lemma KeptRowsInOrder(indices: seq<int>, n: nat)
    ensures Selects(indices, RowBelow(n), KeptRows(indices, n), Positions(RowBelow(n), indices))
    ensures forall i :: 0 <= i < |indices| ==> (indices[i] < n <==> i in Positions(RowBelow(n), indices))
  {
    FilterSelects(RowBelow(n), indices);
  }

  /**
   * `[texts[i] for i in indices if i < len(texts)]`: rows past the end are skipped, and a
   * row before the start of `texts` raises `IndexError`.
   */
  function Retrieved(texts: seq<string>, indices: seq<int>): Result<seq<string>, string> {
    if indices == [] then Success([])
    else
      var chunks :- Retrieved(texts, indices[..|indices| - 1]);
      var i := indices[|indices| - 1];
      if i >= |texts| then Success(chunks)
      else match PyIndex(texts, i)
        case None => Failure(IndexOutOfRange)
        case Some(chunk) => Success(chunks + [chunk])
  }

  /** The text at a kept row, where a negative row counts from the end. */
  function RowText(texts: seq<string>, i: int): string
    requires -|texts| <= i < |texts|
  {
    if i < 0 then texts[|texts| + i] else texts[i]
  }

  /** The retrieval raises exactly when a row lies before the start, and otherwise reads each kept row. */
  predicate ReadsKeptRows(texts: seq<string>, indices: seq<int>) {
    var r, kept := Retrieved(texts, indices), KeptRows(indices, |texts|);
    && (r.Success? <==> forall j :: 0 <= j < |indices| ==> indices[j] >= -|texts|)
    && (r.Failure? ==> r.error == IndexOutOfRange)
    && (r.Success? ==>
          |r.value| == |kept| && forall j :: 0 <= j < |kept| ==> -|texts| <= kept[j] && r.value[j] == RowText(texts, kept[j]))
  }

  /** Retrieval keeps the index's order, skips rows past the end and reads negative rows from the end. */
  lemma {:induction false} RetrievedSpec(texts: seq<string>, indices: seq<int>)
    ensures ReadsKeptRows(texts, indices)
  {
    if indices != [] {
      RetrievedSpec(texts, indices[..|indices| - 1]);
      RetrievedStep(texts, indices);
    }
  }

  lemma RetrievedStep(texts: seq<string>, indices: seq<int>)
    requires indices != [] && ReadsKeptRows(texts, indices[..|indices| - 1])
    ensures ReadsKeptRows(texts, indices)
  {
    var init, i := indices[..|indices| - 1], indices[|indices| - 1];
    var before := Retrieved(texts, init);
    var kept := KeptRows(init, |texts|);
    assert KeptRows(indices, |texts|) == kept + if i < |texts| then [i] else [];
    assert forall j :: 0 <= j < |init| ==> init[j] == indices[j];
    if before.Success? {
      if i >= |texts| {
        assert Retrieved(texts, indices) == Success(before.value);
        assert kept + [] == kept;
      } else if i < -|texts| {
        assert Retrieved(texts, indices).Failure?;
      } else {
        assert Retrieved(texts, indices) == Success(before.value + [RowText(texts, i)]);
      }
    } else {
      var j :| 0 <= j < |init| && init[j] < -|texts|;
      assert indices[j] < -|texts|;
    }
  }

  /** The test `chunk and chunk.strip()`. */
  predicate IsNonBlank(chunk: string)
  {
    chunk != [] && !AllSpace(chunk)
  }

  /** `[chunk for chunk in chunks if chunk and chunk.strip()]`. */
  function NonBlank(chunks: seq<string>): (kept: seq<string>)
    ensures |kept| <= |chunks|
    ensures forall j :: 0 <= j < |kept| ==> !AllSpace(kept[j]) && kept[j] in chunks
    ensures kept == [] <==> forall j :: 0 <= j < |chunks| ==> AllSpace(chunks[j])
  {
    Filter(IsNonBlank, chunks)
  }

  /**
   * The kept chunks are the chunks that are neither empty nor all whitespace, every one of
   * them and nothing else, in their original order.
   */
  lemma NonBlankInOrder(chunks: seq<string>)
    ensures Selects(chunks, IsNonBlank, NonBlank(chunks), Positions(IsNonBlank, chunks))
    ensures forall i :: 0 <= i < |chunks| ==> (!AllSpace(chunks[i]) <==> i in Positions(IsNonBlank, chunks))
  {
    FilterSelects(IsNonBlank, chunks);
  }

  /**
   * `answer_question(question)` over the stored `texts` and the rows the index returned
   * for the question; `raised` is the message of an exception raised by the embedder or
   * the index, if one was.
   */
  function AnswerQuestion(question: string, texts: seq<string>, indices: seq<int>, raised: Option<string>): string {
    if raised.Some? then ErrorPrefix + raised.value
    else if |texts| == 0 then NoDocuments
    else match Retrieved(texts, indices)
      case Failure(e) => ErrorPrefix + e
      case Success(chunks) =>
        var kept := NonBlank(chunks);
        if kept == [] then NoRelevant
        else Header + Join(kept, "\n\n") + Footer + question
  }

  /** A template answer: the header, the chunks separated by blank lines, the question at the end. */
  predicate IsTemplate(answer: string, chunks: seq<string>, question: string) {
    && chunks != []
    && (forall j :: 0 <= j < |chunks| ==> !AllSpace(chunks[j]))
    && answer == Header + Join(chunks, "\n\n") + Footer + question
  }

  /**
   * Exactly one of four answers comes back: the error text when something raised (an
   * exception of the embedder or index, or a row before the start of the texts); the
   * no-documents text for an empty store; the no-information text when every retrieved
   * chunk is blank; and otherwise the template over the non-blank chunks in index order.
   */
  lemma {:induction false} AnswerKinds(question: string, texts: seq<string>, indices: seq<int>, raised: Option<string>)
    ensures var answer, r := AnswerQuestion(question, texts, indices, raised), Retrieved(texts, indices);
      && (raised.Some? ==> answer == ErrorPrefix + raised.value)
      && (raised.None? && |texts| == 0 ==> answer == NoDocuments)
      && (raised.None? && |texts| > 0 ==>
            (r.Failure? <==> exists j :: 0 <= j < |indices| && indices[j] < -|texts|)
            && (r.Failure? ==> answer == ErrorPrefix + IndexOutOfRange)
            && (r.Success? && (forall j :: 0 <= j < |r.value| ==> AllSpace(r.value[j])) ==> answer == NoRelevant)
            && (r.Success? && (exists j :: 0 <= j < |r.value| && !AllSpace(r.value[j])) ==>
                  IsTemplate(answer, NonBlank(r.value), question)))
  {
    RetrievedSpec(texts, indices);
  }

  /** The template answers cannot be mistaken for the fixed ones or for an error. */
  lemma TemplateIsDistinct(answer: string, chunks: seq<string>, question: string)
    requires IsTemplate(answer, chunks, question)
    ensures answer != NoDocuments && answer != NoRelevant
    ensures !(|answer| >= |ErrorPrefix| && answer[..|ErrorPrefix|] == ErrorPrefix)
  {
    assert answer[..|Header|] == Header;
    assert answer[0] == Header[0] == 'B';
    assert ErrorPrefix[0] == 'E';
    assert chunks[0] != [];
    assert |Join(chunks, "\n\n")| >= |chunks[0]|;
    assert |answer| > |NoDocuments| > |NoRelevant|;
  }

  /** The question closes every template answer, after the fixed footer. */
  lemma TemplateEndsWithQuestion(answer: string, chunks: seq<string>, question: string)
    requires IsTemplate(answer, chunks, question)
    ensures EndsWith(answer, Footer + question)
    ensures |answer| >= |Header| && answer[..|Header|] == Header
  {
    var body := Header + Join(chunks, "\n\n");
    assert answer == body + (Footer + question);
    assert answer[|body|..] == Footer + question;
  }
}
